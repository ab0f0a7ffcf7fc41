/** The versioned descriptor of the PMP configuration file. */
module PmpDescriptor {
  import opened ConfigTree
  import opened PmpConfig

  function Plain(name: string, kind: Kind, sensitive: bool): Field {
    Field(name, [name], kind, sensitive)
  }

  function OpenUds(key: string, kind: Kind, sensitive: bool): Field {
    Field("openuds." + key, ["openuds", key], kind, sensitive)
  }

  const TOP_LEVEL: seq<Field> := [
    Plain("server_name", Text, false),
    Plain("welcome", Text, false),
    Plain("chat_enabled", Boolean, false),
    Plain("chat_history_limit", Number, false),
    Plain("port", Number, false),
    Plain("http_port", Number, false),
    Plain("max_rooms", Number, false),
    Plain("max_users_per_room", Number, false),
    Plain("room_creation_enabled", Boolean, false),
    Plain("ready_countdown_secs", Number, false),
    Plain("max_sessions", Number, false),
    Plain("graceful_shutdown_timeout_secs", Number, false),
    Plain("log_retention_days", Number, false),
    Plain("phira_api_endpoint", Text, false),
    Plain("database_url", Text, true),
    Plain("admin_phira_ids", Text, false),
    Plain("filtered_player_ids", Text, false)
  ]

  const NESTED: seq<Field> := [
    OpenUds("enabled", Boolean, false),
    OpenUds("socket_path", Text, false),
    OpenUds("auth_token", Text, true)
  ]

  const DESCRIPTOR: seq<Field> := TOP_LEVEL + NESTED

  /** Length and first letter tell the first segments apart. */
  function Signature(f: Field): (int, char)
    requires f.path != [] && f.path[0] != ""
  {
    (|f.path[0]|, f.path[0][0])
  }

  const SIGNATURES: seq<(int, char)> := [
    (11, 's'), (7, 'w'), (12, 'c'), (18, 'c'), (4, 'p'), (9, 'h'), (9, 'm'), (18, 'm'), (21, 'r'), (20, 'r'),
    (12, 'm'), (30, 'g'), (18, 'l'), (18, 'p'), (12, 'd'), (15, 'a'), (19, 'f')
  ]

  lemma SignaturesFit()
    ensures |TOP_LEVEL| == |SIGNATURES| == 17
    ensures forall i :: 0 <= i < 17 ==>
              && TOP_LEVEL[i].path == [TOP_LEVEL[i].name] && TOP_LEVEL[i].name != ""
              && Signature(TOP_LEVEL[i]) == SIGNATURES[i]
  {
  }

  lemma SignaturesDiffer(i: nat, j: nat)
    requires i < j < 17
    ensures SIGNATURES[i] != SIGNATURES[j]
  {
  }

  lemma NoneStartsLikeOpenUds(i: nat)
    requires i < 17
    ensures SIGNATURES[i].1 != 'o'
  {
  }

  lemma TopLevelApart(i: nat, j: nat)
    requires i < j < 17
    ensures Unrelated(TOP_LEVEL[i].path, TOP_LEVEL[j].path) && TOP_LEVEL[i].name != TOP_LEVEL[j].name
  {
    SignaturesFit();
    SignaturesDiffer(i, j);
    assert Signature(TOP_LEVEL[i]) != Signature(TOP_LEVEL[j]);
  }

  lemma NestedApart(i: nat, j: nat)
    requires i < j < 3
    ensures Unrelated(NESTED[i].path, NESTED[j].path) && NESTED[i].name != NESTED[j].name
  {
    assert |NESTED[0].path[1]| == 7 && |NESTED[1].path[1]| == 11 && |NESTED[2].path[1]| == 10;
    assert |NESTED[i].name| == 8 + |NESTED[i].path[1]| && |NESTED[j].name| == 8 + |NESTED[j].path[1]|;
    assert NESTED[i].path[1] != NESTED[j].path[1];
  }

  lemma LevelsApart(i: nat, j: nat)
    requires i < 17 && j < 3
    ensures Unrelated(TOP_LEVEL[i].path, NESTED[j].path) && TOP_LEVEL[i].name != NESTED[j].name
  {
    SignaturesFit();
    NoneStartsLikeOpenUds(i);
    assert NESTED[j].path[0] == "openuds" && NESTED[j].path[0][0] == 'o' && NESTED[j].name[0] == 'o';
    assert TOP_LEVEL[i].path[0][0] != 'o' && TOP_LEVEL[i].name[0] != 'o';
  }

  /** No field of the real descriptor lies on the way to another: the editor's laws apply to it. */
  lemma DescriptorIsPrefixFree()
    ensures PrefixFree(DESCRIPTOR)
  {
    SignaturesFit();
    forall i, j | 0 <= i < j < |DESCRIPTOR|
      ensures Unrelated(DESCRIPTOR[i].path, DESCRIPTOR[j].path) && DESCRIPTOR[i].name != DESCRIPTOR[j].name
    {
      if j < 17 {
        TopLevelApart(i, j);
      } else if i < 17 {
        LevelsApart(i, j - 17);
      } else {
        NestedApart(i - 17, j - 17);
      }
    }
  }

  // ---------------------------------------------------------------------
  // Which forms are accepted
  // ---------------------------------------------------------------------

  predicate IfBool(form: map<string, Tree>, name: string) { name in form ==> form[name].Bool? }

  predicate IfNum(form: map<string, Tree>, name: string) { name in form ==> form[name].Num? }

  lemma TopLevelBooleans(form: map<string, Tree>)
    ensures FieldOk(TOP_LEVEL[2], form) <==> IfBool(form, "chat_enabled")
    ensures FieldOk(TOP_LEVEL[8], form) <==> IfBool(form, "room_creation_enabled")
  {
  }

  lemma TopLevelNumbers(form: map<string, Tree>)
    ensures FieldOk(TOP_LEVEL[3], form) <==> IfNum(form, "chat_history_limit")
    ensures FieldOk(TOP_LEVEL[4], form) <==> IfNum(form, "port")
    ensures FieldOk(TOP_LEVEL[5], form) <==> IfNum(form, "http_port")
    ensures FieldOk(TOP_LEVEL[6], form) <==> IfNum(form, "max_rooms")
    ensures FieldOk(TOP_LEVEL[7], form) <==> IfNum(form, "max_users_per_room")
    ensures FieldOk(TOP_LEVEL[9], form) <==> IfNum(form, "ready_countdown_secs")
    ensures FieldOk(TOP_LEVEL[10], form) <==> IfNum(form, "max_sessions")
    ensures FieldOk(TOP_LEVEL[11], form) <==> IfNum(form, "graceful_shutdown_timeout_secs")
    ensures FieldOk(TOP_LEVEL[12], form) <==> IfNum(form, "log_retention_days")
  {
  }

  lemma TextsAreNotChecked(i: nat, form: map<string, Tree>)
    requires i in {0, 1, 13, 14, 15, 16}
    ensures FieldOk(TOP_LEVEL[i], form)
  {
  }

  lemma NestedFields(form: map<string, Tree>)
    ensures FieldOk(NESTED[0], form) <==> IfBool(form, "openuds.enabled")
    ensures FieldOk(NESTED[1], form) && FieldOk(NESTED[2], form)
  {
    assert NESTED[0].name == "openuds.enabled";
  }

  predicate BooleansOk(form: map<string, Tree>) {
    IfBool(form, "chat_enabled") && IfBool(form, "room_creation_enabled") && IfBool(form, "openuds.enabled")
  }

  predicate NumbersOk(form: map<string, Tree>) {
    && IfNum(form, "chat_history_limit") && IfNum(form, "port") && IfNum(form, "http_port") && IfNum(form, "max_rooms")
    && IfNum(form, "max_users_per_room") && IfNum(form, "ready_countdown_secs") && IfNum(form, "max_sessions")
    && IfNum(form, "graceful_shutdown_timeout_secs") && IfNum(form, "log_retention_days")
  }

  /** A form is accepted exactly when its switches are booleans and its numbers are numbers. */
  lemma FormAcceptedIff(form: map<string, Tree>)
    ensures Mistyped(DESCRIPTOR, form) == [] <==> BooleansOk(form) && NumbersOk(form)
  {
    NothingMistypedIff(DESCRIPTOR, form);
    TopLevelBooleans(form);
    TopLevelNumbers(form);
    NestedFields(form);
    forall i | 0 <= i < 17 ensures DESCRIPTOR[i] == TOP_LEVEL[i] {
    }
    forall i | 17 <= i < 20 ensures DESCRIPTOR[i] == NESTED[i - 17] {
    }
    if Mistyped(DESCRIPTOR, form) == [] {
      assert forall i :: 0 <= i < 17 ==> FieldOk(TOP_LEVEL[i], form) by {
        forall i | 0 <= i < 17 ensures FieldOk(TOP_LEVEL[i], form) { assert FieldOk(DESCRIPTOR[i], form); }
      }
      assert FieldOk(DESCRIPTOR[17], form);
    }
    if BooleansOk(form) && NumbersOk(form) {
      forall i | 0 <= i < |DESCRIPTOR| ensures FieldOk(DESCRIPTOR[i], form) {
        if i in {0, 1, 13, 14, 15, 16} {
          TextsAreNotChecked(i, form);
        } else if i >= 17 {
          assert DESCRIPTOR[i] == NESTED[i - 17];
        }
      }
    }
  }

  /** The secrets of the real descriptor are the database URL and the OpenUDS token, and nothing else. */
  lemma SecretsAre(i: nat)
    requires i < 20
    ensures |DESCRIPTOR| == 20
    ensures DESCRIPTOR[i].sensitive
       <==> DESCRIPTOR[i].name == "database_url" || DESCRIPTOR[i].name == "openuds.auth_token"
  {
    if i < 17 {
      assert DESCRIPTOR[i] == TOP_LEVEL[i];
    } else {
      assert DESCRIPTOR[i] == NESTED[i - 17];
    }
  }
}
