/**
 Editing the PMP configuration through its form descriptor.

 The panel reads redacted field values and submits changed ones; the server
 patches the stored tree at the submitted fields only. A submitted redaction
 placeholder on a sensitive field means "keep what is there".
 */
module PmpConfig {
  import opened Prelude
  import opened ConfigTree

  const REDACTED := "[REDACTED]"

  /** The wire type of a field; a switch is a boolean, a text widget a string. */
  datatype Kind = Boolean | Number | Text

  /** `name` is the dotted form of `path`; forms are keyed by name. */
  datatype Field = Field(name: string, path: Path, kind: Kind, sensitive: bool)

  /** No field lies on the way to another one, and names are not shared. */
  ghost predicate PrefixFree(fs: seq<Field>) {
    && (forall i :: 0 <= i < |fs| ==> fs[i].path != [])
    && (forall i, j :: 0 <= i < j < |fs| ==> Unrelated(fs[i].path, fs[j].path) && fs[i].name != fs[j].name)
  }

  function LowerAscii(c: char): char {
    if 'A' <= c <= 'Z' then c - 'A' + 'a' else c
  }

  predicate EqualsIgnoreCase(s: string, u: string) {
    |s| == |u| && forall i :: 0 <= i < |s| ==> LowerAscii(s[i]) == LowerAscii(u[i])
  }

  predicate IsPlaceholder(v: Tree) { v.Str? && EqualsIgnoreCase(v.text, REDACTED) }

  /** The value a form asks to be written to a field, if any. */
  function Submitted(f: Field, form: map<string, Tree>): Option<Tree> {
    if f.name !in form || (f.sensitive && IsPlaceholder(form[f.name])) then None else Some(form[f.name])
  }

  /** The placeholder, letter by letter: `[REDACTED]` in either case. */
  lemma PlaceholderIs(v: Tree)
    ensures IsPlaceholder(v)
       <==> && v.Str? && |v.text| == 10 && v.text[0] == '[' && v.text[9] == ']'
            && v.text[1] in {'R', 'r'} && v.text[2] in {'E', 'e'} && v.text[3] in {'D', 'd'} && v.text[4] in {'A', 'a'}
            && v.text[5] in {'C', 'c'} && v.text[6] in {'T', 't'} && v.text[7] in {'E', 'e'} && v.text[8] in {'D', 'd'}
  {
    if v.Str? && |v.text| == 10 {
      assert forall i :: 0 <= i < 10 && LowerAscii(v.text[i]) == LowerAscii(REDACTED[i]) ==>
        v.text[i] == REDACTED[i] || v.text[i] == LowerAscii(REDACTED[i]);
    }
  }

  // ---------------------------------------------------------------------
  // Merging
  // ---------------------------------------------------------------------

  function Patch(t: Tree, f: Field, form: map<string, Tree>): Option<Tree> {
    match Submitted(f, form) case None => Some(t) case Some(v) => Set(t, f.path, v)
  }

  /** Patch every submitted field, in descriptor order; the first failure ends it. */
  function Merge(t: Tree, fs: seq<Field>, form: map<string, Tree>): Option<Tree>
    decreases |fs|
  {
    if fs == [] then Some(t)
    else match Patch(t, fs[0], form) case None => None case Some(t') => Merge(t', fs[1..], form)
  }

  /** `merge_yaml_patch` on trees: `values` must be an object. */
  method MergePatch(current: Tree, fs: seq<Field>, values: Tree) returns (merged: Option<Tree>)
    ensures merged == if values.Obj? then Merge(current, fs, values.members) else None
  {
    if !values.Obj? { return None; }
    var root := current;
    var i := 0;
    while i < |fs|
      invariant 0 <= i <= |fs|
      invariant Merge(current, fs, values.members) == Merge(root, fs[i..], values.members)
    {
      var f := fs[i];
      assert fs[i..][0] == f && fs[i..][1..] == fs[i + 1..];
      if f.name in values.members {
        var v := values.members[f.name];
        if !(f.sensitive && IsPlaceholder(v)) {
          match Set(root, f.path, v) {
            case None => return None;
            case Some(t) => root := t;
          }
        }
      }
      i := i + 1;
    }
    merged := Some(root);
  }

  /** The cursor walk of `field_value`. */
  method FieldValue(t: Tree, path: Path) returns (value: Option<Tree>)
    ensures value == Get(t, path)
  {
    var current := t;
    var i := 0;
    while i < |path|
      invariant 0 <= i <= |path|
      invariant Get(t, path) == Get(current, path[i..])
    {
      assert path[i..][1..] == path[i + 1..];
      if !current.Obj? || path[i] !in current.members { return None; }
      current := current.members[path[i]];
      i := i + 1;
    }
    value := Some(current);
  }

  /** The first field's patch does not disturb the other fields. */
  lemma PatchOther(t: Tree, f: Field, form: map<string, Tree>, q: Path)
    requires Patch(t, f, form).Some? && (Submitted(f, form).Some? ==> Unrelated(f.path, q))
    ensures Get(Patch(t, f, form).value, q) == Get(t, q)
    ensures Open(Patch(t, f, form).value, q) <==> Open(t, q)
  {
    if Submitted(f, form).Some? {
      GetSetOther(t, f.path, Submitted(f, form).value, q);
      OpenAfterOther(t, f.path, Submitted(f, form).value, q);
    }
  }

  /** Every path unrelated to the patched ones is unchanged. */
  lemma {:induction false} MergeFrame(t: Tree, fs: seq<Field>, form: map<string, Tree>, q: Path)
    requires Merge(t, fs, form).Some?
    requires forall i :: 0 <= i < |fs| && Submitted(fs[i], form).Some? ==> Unrelated(fs[i].path, q)
    ensures Get(Merge(t, fs, form).value, q) == Get(t, q)
    decreases |fs|
  {
    if fs != [] {
      PatchOther(t, fs[0], form, q);
      MergeFrame(Patch(t, fs[0], form).value, fs[1..], form, q);
    }
  }

  lemma PrefixFreeTail(fs: seq<Field>)
    requires PrefixFree(fs) && fs != []
    ensures PrefixFree(fs[1..])
    ensures forall i :: 0 <= i < |fs[1..]| ==>
              Unrelated(fs[0].path, fs[1..][i].path) && Unrelated(fs[1..][i].path, fs[0].path)
  {
  }

  /** What a field reads after a merge: the submitted value, or else the old one. */
  function Expected(t: Tree, f: Field, form: map<string, Tree>): Option<Tree> {
    if Submitted(f, form).Some? then Submitted(f, form) else Get(t, f.path)
  }

  /** After a merge a field reads what was submitted for it, a secret's placeholder apart; else what it read before. */
  lemma MergedFieldReads(t: Tree, fs: seq<Field>, form: map<string, Tree>, k: nat)
    requires PrefixFree(fs) && k < |fs| && Merge(t, fs, form).Some?
    ensures var f := fs[k];
            Get(Merge(t, fs, form).value, f.path)
            == if f.name !in form then Get(t, f.path)
               else if f.sensitive && IsPlaceholder(form[f.name]) then Get(t, f.path)
               else Some(form[f.name])
  {
    MergeReadsBack(t, fs, form, k);
  }

  lemma {:induction false} MergeReadsBack(t: Tree, fs: seq<Field>, form: map<string, Tree>, k: nat)
    requires PrefixFree(fs) && k < |fs| && Merge(t, fs, form).Some?
    ensures Get(Merge(t, fs, form).value, fs[k].path) == Expected(t, fs[k], form)
    decreases |fs|
  {
    PrefixFreeTail(fs);
    var t' := Patch(t, fs[0], form).value;
    if k == 0 {
      if Submitted(fs[0], form).Some? {
        GetSet(t, fs[0].path, Submitted(fs[0], form).value);
      }
      MergeFrame(t', fs[1..], form, fs[0].path);
    } else {
      PatchOther(t, fs[0], form, fs[k].path);
      MergeReadsBack(t', fs[1..], form, k - 1);
    }
  }

  /** A merge succeeds exactly when the way to every submitted field is open. */
  lemma {:induction false} MergeSucceedsIff(t: Tree, fs: seq<Field>, form: map<string, Tree>)
    requires PrefixFree(fs)
    ensures Merge(t, fs, form).Some? <==>
              forall i :: 0 <= i < |fs| && Submitted(fs[i], form).Some? ==> Open(t, fs[i].path)
    decreases |fs|
  {
    if fs != [] {
      PrefixFreeTail(fs);
      if Submitted(fs[0], form).Some? {
        SetSucceedsIff(t, fs[0].path, Submitted(fs[0], form).value);
      }
      if Patch(t, fs[0], form).Some? {
        var t' := Patch(t, fs[0], form).value;
        MergeSucceedsIff(t', fs[1..], form);
        forall i | 0 < i < |fs| ensures Open(t', fs[i].path) <==> Open(t, fs[i].path) && fs[i] == fs[1..][i - 1] {
          PatchOther(t, fs[0], form, fs[i].path);
        }
      }
    }
  }

  /** A merge whose submitted values are all in place already changes nothing. */
  lemma {:induction false} MergeOfCurrent(t: Tree, fs: seq<Field>, form: map<string, Tree>)
    requires forall i :: 0 <= i < |fs| && Submitted(fs[i], form).Some? ==> Get(t, fs[i].path) == Submitted(fs[i], form)
    ensures Merge(t, fs, form) == Some(t)
    decreases |fs|
  {
    if fs != [] {
      if Submitted(fs[0], form).Some? {
        SetGet(t, fs[0].path);
      }
      MergeOfCurrent(t, fs[1..], form);
    }
  }

  /** Saving the same form twice is saving it once. */
  lemma MergeIdempotent(t: Tree, fs: seq<Field>, form: map<string, Tree>)
    requires PrefixFree(fs) && Merge(t, fs, form).Some?
    ensures Merge(Merge(t, fs, form).value, fs, form) == Merge(t, fs, form)
  {
    var t' := Merge(t, fs, form).value;
    forall i | 0 <= i < |fs| && Submitted(fs[i], form).Some? ensures Get(t', fs[i].path) == Submitted(fs[i], form) {
      MergeReadsBack(t, fs, form, i);
    }
    MergeOfCurrent(t', fs, form);
  }

  // ---------------------------------------------------------------------
  // The order of the descriptor does not matter
  // ---------------------------------------------------------------------

  lemma PatchSwap(t: Tree, f: Field, g: Field, form: map<string, Tree>)
    requires Unrelated(f.path, g.path)
    ensures Merge(t, [f, g], form) == Merge(t, [g, f], form)
  {
    assert [f, g][1..] == [g] && [g, f][1..] == [f];
    var v, w := Submitted(f, form), Submitted(g, form);
    if v.Some? && w.Some? {
      SetSucceedsIff(t, f.path, v.value);
      SetSucceedsIff(t, g.path, w.value);
      if Set(t, f.path, v.value).Some? {
        OpenAfterOther(t, f.path, v.value, g.path);
        SetSucceedsIff(Set(t, f.path, v.value).value, g.path, w.value);
      }
      if Set(t, g.path, w.value).Some? {
        OpenAfterOther(t, g.path, w.value, f.path);
        SetSucceedsIff(Set(t, g.path, w.value).value, f.path, v.value);
      }
      if Set(t, f.path, v.value).Some? && Set(t, g.path, w.value).Some? {
        SetCommutes(t, f.path, v.value, g.path, w.value);
      }
    }
  }

  lemma MergeCons(t: Tree, f: Field, rest: seq<Field>, form: map<string, Tree>)
    ensures Merge(t, [f] + rest, form)
         == match Patch(t, f, form) { case None => None case Some(t') => Merge(t', rest, form) }
  {
    assert ([f] + rest)[1..] == rest;
  }

  lemma MergeTwo(t: Tree, f: Field, g: Field, rest: seq<Field>, form: map<string, Tree>)
    ensures Merge(t, [f] + ([g] + rest), form)
         == match Merge(t, [f, g], form) { case None => None case Some(t') => Merge(t', rest, form) }
  {
    MergeCons(t, f, [g] + rest, form);
    assert [f, g] == [f] + [g];
    MergeCons(t, f, [g], form);
    if Patch(t, f, form).Some? {
      MergeCons(Patch(t, f, form).value, g, rest, form);
      assert [g] == [g] + [];
      MergeCons(Patch(t, f, form).value, g, [], form);
    }
  }

  /** A field may be patched first instead of in its turn. */
  lemma {:induction false} PatchFirst(t: Tree, fs: seq<Field>, k: nat, form: map<string, Tree>)
    requires k < |fs| && PrefixFree(fs)
    ensures Merge(t, fs, form) == Merge(t, [fs[k]] + Remove(fs, k), form)
    decreases |fs|
  {
    if k == 0 {
      assert [fs[0]] + Remove(fs, 0) == fs;
    } else {
      PrefixFreeTail(fs);
      var f, g := fs[0], fs[k];
      var rest := Remove(fs[1..], k - 1);
      assert Remove(fs, k) == [f] + rest;
      assert fs == [f] + fs[1..];
      MergeCons(t, f, fs[1..], form);
      MergeCons(t, f, [g] + rest, form);
      if Patch(t, f, form).Some? {
        PatchFirst(Patch(t, f, form).value, fs[1..], k - 1, form);
      }
      MergeTwo(t, f, g, rest, form);
      MergeTwo(t, g, f, rest, form);
      PatchSwap(t, f, g, form);
    }
  }

  function Remove<T>(s: seq<T>, k: nat): seq<T>
    requires k < |s|
  {
    s[..k] + s[k + 1..]
  }

  lemma PrefixFreeRemove(fs: seq<Field>, k: nat)
    requires PrefixFree(fs) && k < |fs|
    ensures PrefixFree(Remove(fs, k))
  {
    var r := Remove(fs, k);
    assert forall i :: 0 <= i < |r| ==> r[i] == fs[if i < k then i else i + 1];
  }

  lemma RemoveMatches<T>(fs: seq<T>, gs: seq<T>) returns (k: nat)
    requires multiset(fs) == multiset(gs) && gs != []
    ensures k < |fs| && fs[k] == gs[0]
    ensures multiset(Remove(fs, k)) == multiset(gs[1..])
  {
    assert gs == [gs[0]] + gs[1..];
    assert gs[0] in multiset(fs);
    k :| 0 <= k < |fs| && fs[k] == gs[0];
    var a, x, b := fs[..k], [fs[k]], fs[k + 1..];
    assert fs == a + x + b;
    assert multiset(fs) == multiset(a) + multiset(x) + multiset(b);
    assert multiset(gs) == multiset(x) + multiset(gs[1..]);
    assert multiset(gs[1..]) == multiset(gs) - multiset(x);
    assert multiset(Remove(fs, k)) == multiset(a) + multiset(b) == multiset(fs) - multiset(x);
  }

  /** Any two orders of the same descriptor merge alike, failures included. */
  lemma {:induction false} MergeOrderIrrelevant(t: Tree, fs: seq<Field>, gs: seq<Field>, form: map<string, Tree>)
    requires PrefixFree(fs) && multiset(fs) == multiset(gs)
    ensures Merge(t, fs, form) == Merge(t, gs, form)
    decreases |gs|
  {
    if gs == [] {
      assert |multiset(fs)| == 0;
    } else {
      var k := RemoveMatches(fs, gs);
      var rest := Remove(fs, k);
      PatchFirst(t, fs, k, form);
      PrefixFreeRemove(fs, k);
      assert gs == [gs[0]] + gs[1..];
      MergeCons(t, gs[0], gs[1..], form);
      MergeCons(t, gs[0], rest, form);
      if Patch(t, gs[0], form).Some? {
        MergeOrderIrrelevant(Patch(t, gs[0], form).value, rest, gs[1..], form);
      }
    }
  }

  // ---------------------------------------------------------------------
  // Reading: redacted values, differences, projection
  // ---------------------------------------------------------------------

  /** The value shown for a field: the placeholder for a secret, null for nothing. */
  function Shown(t: Tree, f: Field): Tree {
    match Get(t, f.path)
    case None => Null
    case Some(v) => if f.sensitive then Str(REDACTED) else v
  }

  /** The `values` response, field by field. */
  function ValuesOf(t: Tree, fs: seq<Field>): map<string, Tree> {
    if fs == [] then map[] else ValuesOf(t, Init(fs))[Last(fs).name := Shown(t, Last(fs))]
  }

  lemma PrefixFreeInit(fs: seq<Field>)
    requires PrefixFree(fs) && fs != []
    ensures PrefixFree(Init(fs))
    ensures forall k :: 0 <= k < |fs| - 1 ==> fs[k] == Init(fs)[k] && fs[k].name != Last(fs).name
  {
  }

  lemma {:induction false} ValueAt(t: Tree, fs: seq<Field>, k: nat)
    requires PrefixFree(fs) && k < |fs|
    ensures Lookup(ValuesOf(t, fs), fs[k].name) == Some(Shown(t, fs[k]))
    decreases |fs|
  {
    PrefixFreeInit(fs);
    if k < |fs| - 1 {
      ValueAt(t, Init(fs), k);
    }
  }

  lemma {:induction false} ValuesNamed(t: Tree, fs: seq<Field>, name: string)
    requires name in ValuesOf(t, fs)
    ensures exists k :: 0 <= k < |fs| && fs[k].name == name
    decreases |fs|
  {
    if name == Last(fs).name {
      assert fs[|fs| - 1].name == name;
    } else {
      ValuesNamed(t, Init(fs), name);
      var k :| 0 <= k < |Init(fs)| && Init(fs)[k].name == name;
      assert fs[k].name == name;
    }
  }

  lemma ValuesAt(t: Tree, fs: seq<Field>)
    requires PrefixFree(fs)
    ensures forall k :: 0 <= k < |fs| ==>
              fs[k].name in ValuesOf(t, fs) && ValuesOf(t, fs)[fs[k].name] == Shown(t, fs[k])
    ensures forall name :: name in ValuesOf(t, fs) ==> exists k :: 0 <= k < |fs| && fs[k].name == name
  {
    forall k | 0 <= k < |fs|
      ensures fs[k].name in ValuesOf(t, fs) && ValuesOf(t, fs)[fs[k].name] == Shown(t, fs[k])
    {
      ValueAt(t, fs, k);
    }
    forall name | name in ValuesOf(t, fs) ensures exists k :: 0 <= k < |fs| && fs[k].name == name {
      ValuesNamed(t, fs, name);
    }
  }

  /** What the response says of a field: a secret's placeholder, its value, or null if it is missing. */
  lemma ValuesMean(t: Tree, fs: seq<Field>, k: nat)
    requires PrefixFree(fs) && k < |fs|
    ensures Lookup(ValuesOf(t, fs), fs[k].name)
         == Some(if Get(t, fs[k].path).None? then Null
                 else if fs[k].sensitive then Str("[REDACTED]")
                 else Get(t, fs[k].path).value)
  {
    hide ValuesOf, Get;
    ValueAt(t, fs, k);
  }

  method Values(t: Tree, fs: seq<Field>) returns (values: map<string, Tree>)
    ensures values == ValuesOf(t, fs)
    ensures forall name :: name in values ==> exists k :: 0 <= k < |fs| && fs[k].name == name
    ensures PrefixFree(fs) ==> forall k :: 0 <= k < |fs| ==>
              Lookup(values, fs[k].name) == Some(if Get(t, fs[k].path).None? then Null
                                                 else if fs[k].sensitive then Str("[REDACTED]")
                                                 else Get(t, fs[k].path).value)
  {
    values := map[];
    var i := 0;
    while i < |fs|
      invariant 0 <= i <= |fs|
      invariant values == ValuesOf(t, fs[..i])
    {
      var f := fs[i];
      var v := FieldValue(t, f.path);
      values := values[f.name := if v.None? then Null else if f.sensitive then Str(REDACTED) else v.value];
      i := i + 1;
      assert Init(fs[..i]) == fs[..i - 1];
    }
    assert fs[..|fs|] == fs;
    ValuesTold(t, fs);
  }

  lemma ValuesTold(t: Tree, fs: seq<Field>)
    ensures forall name :: name in ValuesOf(t, fs) ==> exists k :: 0 <= k < |fs| && fs[k].name == name
    ensures PrefixFree(fs) ==> forall k :: 0 <= k < |fs| ==>
              Lookup(ValuesOf(t, fs), fs[k].name) == Some(if Get(t, fs[k].path).None? then Null
                                                          else if fs[k].sensitive then Str("[REDACTED]")
                                                          else Get(t, fs[k].path).value)
  {
    hide ValuesOf, Get;
    forall name | name in ValuesOf(t, fs) ensures exists k :: 0 <= k < |fs| && fs[k].name == name {
      ValuesNamed(t, fs, name);
    }
    forall k | PrefixFree(fs) && 0 <= k < |fs|
      ensures Lookup(ValuesOf(t, fs), fs[k].name) == Some(if Get(t, fs[k].path).None? then Null
                                                          else if fs[k].sensitive then Str("[REDACTED]")
                                                          else Get(t, fs[k].path).value)
    {
      ValuesMean(t, fs, k);
    }
  }

  /** A form as the panel sends it back: nulls dropped. */
  function NonNull(values: map<string, Tree>): map<string, Tree> {
    map name | name in values && values[name] != Null :: values[name]
  }

  /** Submitting the shown values back unchanged keeps the whole tree, secrets included. */
  lemma ResubmitKeepsEverything(t: Tree, fs: seq<Field>)
    requires PrefixFree(fs)
    ensures Merge(t, fs, NonNull(ValuesOf(t, fs))) == Some(t)
  {
    ValuesAt(t, fs);
    MergeOfCurrent(t, fs, NonNull(ValuesOf(t, fs)));
  }

  /** A null submitted for a missing field is written, if the save succeeds at all. */
  lemma NullCreatesField(t: Tree, fs: seq<Field>, k: nat)
    requires PrefixFree(fs) && k < |fs| && Get(t, fs[k].path).None?
    ensures Merge(t, fs, ValuesOf(t, fs)) != Some(t)
  {
    ValuesAt(t, fs);
    if Merge(t, fs, ValuesOf(t, fs)).Some? {
      MergeReadsBack(t, fs, ValuesOf(t, fs), k);
    }
  }

  /** With the nulls included that is so exactly when no field is missing from the tree. */
  lemma ResubmitWithNullsIff(t: Tree, fs: seq<Field>)
    requires PrefixFree(fs)
    ensures Merge(t, fs, ValuesOf(t, fs)) == Some(t) <==> forall k :: 0 <= k < |fs| ==> Get(t, fs[k].path).Some?
  {
    if k :| 0 <= k < |fs| && Get(t, fs[k].path).None? {
      NullCreatesField(t, fs, k);
    } else {
      ValuesAt(t, fs);
      MergeOfCurrent(t, fs, ValuesOf(t, fs));
    }
  }

  /** What one field's entry in a difference report shows. */
  datatype Change = Change(name: string, was: Tree, becomes: Tree)

  function ChangeOf(t: Tree, t': Tree, f: Field): Change {
    if f.sensitive then Change(f.name, Str(REDACTED), Str(REDACTED))
    else Change(f.name, (match Get(t, f.path) case None => Null case Some(v) => v),
                        (match Get(t', f.path) case None => Null case Some(v) => v))
  }

  /** The fields that read differently, in descriptor order. */
  function Changes(t: Tree, t': Tree, fs: seq<Field>): seq<Change> {
    if fs == [] then []
    else if Get(t, Last(fs).path) != Get(t', Last(fs).path)
    then Changes(t, t', Init(fs)) + [ChangeOf(t, t', Last(fs))]
    else Changes(t, t', Init(fs))
  }

  lemma NoEntries(t: Tree, t': Tree)
    ensures Changes(t, t', []) == []
  {
  }

  lemma {:induction false} LastEntry(t: Tree, t': Tree, fs: seq<Field>)
    requires fs != []
    ensures Changes(t, t', fs) ==
              Changes(t, t', Init(fs))
              + if Get(t, Last(fs).path) != Get(t', Last(fs).path) then [ChangeOf(t, t', Last(fs))] else []
  {
    hide Get, ChangeOf;
  }

  /** One entry of a report, for the field that it is about. */
  lemma {:induction false} ChangesMean(t: Tree, t': Tree, fs: seq<Field>) returns (pos: seq<nat>)
    ensures |pos| == |Changes(t, t', fs)|
    ensures forall k :: 0 <= k < |pos| ==> pos[k] < |fs| && Get(t, fs[pos[k]].path) != Get(t', fs[pos[k]].path)
    ensures forall k, l :: 0 <= k < l < |pos| ==> pos[k] < pos[l]
    ensures forall i :: 0 <= i < |fs| && Get(t, fs[i].path) != Get(t', fs[i].path) ==> i in pos
    ensures forall k :: 0 <= k < |pos| ==> Changes(t, t', fs)[k] == ChangeOf(t, t', fs[pos[k]])
    decreases |fs|
  {
    hide Get, ChangeOf, Changes;
    pos := [];
    if fs == [] {
      NoEntries(t, t');
    } else {
      LastEntry(t, t', fs);
      var before := ChangesMean(t, t', Init(fs));
      assert forall i :: 0 <= i < |fs| - 1 ==> Init(fs)[i] == fs[i];
      pos := before;
      if Get(t, Last(fs).path) != Get(t', Last(fs).path) {
        pos := before + [|fs| - 1];
      }
      forall i | 0 <= i < |fs| && Get(t, fs[i].path) != Get(t', fs[i].path) ensures i in pos {
        if i < |fs| - 1 {
          assert i in before;
        } else {
          assert pos[|before|] == i;
        }
      }
    }
  }

  /**
   `diff`: compare against what a save would really store. The report has one entry
   for each field that reads differently, in the order of the descriptor: `pos` says
   which. A secret's entry shows the placeholder twice; any other entry shows what
   the field reads now and what it would read, null if it is missing.
   */
  method Diff(current: Tree, fs: seq<Field>, values: Tree) returns (changes: Option<seq<Change>>, ghost pos: seq<nat>)
    ensures changes.Some? <==> values.Obj? && Merge(current, fs, values.members).Some?
    ensures changes.Some? ==>
      && |pos| == |changes.value| && (forall k, l :: 0 <= k < l < |pos| ==> pos[k] < pos[l])
      && (forall k :: 0 <= k < |pos| ==> pos[k] < |fs|)
    ensures changes.Some? ==>
      var merged := Merge(current, fs, values.members).value;
      forall i :: 0 <= i < |fs| ==> (i in pos <==> Get(current, fs[i].path) != Get(merged, fs[i].path))
    ensures changes.Some? ==>
      var merged := Merge(current, fs, values.members).value;
      forall k :: 0 <= k < |pos| ==>
        && var f, c := fs[pos[k]], changes.value[k];
        && c.name == f.name
        && (f.sensitive ==> c.was == Str("[REDACTED]") && c.becomes == Str("[REDACTED]"))
        && (!f.sensitive ==>
              && c.was == (if Get(current, f.path).Some? then Get(current, f.path).value else Null)
              && c.becomes == (if Get(merged, f.path).Some? then Get(merged, f.path).value else Null))
    ensures changes.Some? ==> changes.value == Changes(current, Merge(current, fs, values.members).value, fs)
  {
    changes, pos := None, [];
    var merged := MergePatch(current, fs, values);
    if merged.None? { return; }
    var proposed := merged.value;
    var list := [];
    var i := 0;
    while i < |fs|
      invariant 0 <= i <= |fs|
      invariant list == Changes(current, proposed, fs[..i])
    {
      var f := fs[i];
      var a := FieldValue(current, f.path);
      var b := FieldValue(proposed, f.path);
      if a != b {
        list := list + [Change(f.name, if f.sensitive then Str(REDACTED) else if a.None? then Null else a.value,
                                       if f.sensitive then Str(REDACTED) else if b.None? then Null else b.value)];
      }
      i := i + 1;
      assert Init(fs[..i]) == fs[..i - 1];
    }
    assert fs[..|fs|] == fs;
    changes := Some(list);
    pos := ChangesMean(current, proposed, fs);
  }

  /** The field changes in both cases or in neither, and if it is no secret it reads the same in both. */
  predicate ChangesAlike(t: Tree, t': Tree, u: Tree, u': Tree, f: Field) {
    && (Get(t, f.path) != Get(t', f.path) <==> Get(u, f.path) != Get(u', f.path))
    && (!f.sensitive ==> Get(t, f.path) == Get(u, f.path) && Get(t', f.path) == Get(u', f.path))
  }

  lemma {:induction false} EntriesAlike(t: Tree, t': Tree, u: Tree, u': Tree, f: Field)
    requires ChangesAlike(t, t', u, u', f)
    ensures Get(t, f.path) != Get(t', f.path) <==> Get(u, f.path) != Get(u', f.path)
    ensures ChangeOf(t, t', f) == ChangeOf(u, u', f)
  {
    hide Get;
  }

  /** A report says nothing about a secret but that it changes. */
  lemma {:induction false} ReportsAgree(t: Tree, t': Tree, u: Tree, u': Tree, fs: seq<Field>)
    requires forall i :: 0 <= i < |fs| ==> ChangesAlike(t, t', u, u', fs[i])
    ensures Changes(t, t', fs) == Changes(u, u', fs)
    decreases |fs|
  {
    hide Get, ChangeOf, ChangesAlike, Changes;
    if fs == [] {
      NoEntries(t, t');
      NoEntries(u, u');
    } else {
      LastEntry(t, t', fs);
      LastEntry(u, u', fs);
      assert forall i :: 0 <= i < |fs| - 1 ==> Init(fs)[i] == fs[i];
      ReportsAgree(t, t', u, u', Init(fs));
      EntriesAlike(t, t', u, u', Last(fs));
    }
  }

  /** Two forms that differ in the values of secrets only. */
  predicate SameFormButSecrets(form: map<string, Tree>, other: map<string, Tree>, fs: seq<Field>) {
    forall f :: f in fs && !f.sensitive ==> Lookup(form, f.name) == Lookup(other, f.name)
  }

  /**
   Two configurations and two forms that differ only in secrets, and change the same
   fields, give the same report.
   */
  lemma DiffRevealsNoSecret(t: Tree, u: Tree, fs: seq<Field>, form: map<string, Tree>, other: map<string, Tree>)
    requires PrefixFree(fs) && Merge(t, fs, form).Some? && Merge(u, fs, other).Some?
    requires SameButSecrets(t, u, fs) && SameFormButSecrets(form, other, fs)
    requires var t', u' := Merge(t, fs, form).value, Merge(u, fs, other).value;
             forall f :: f in fs && f.sensitive ==>
               (Get(t, f.path) != Get(t', f.path) <==> Get(u, f.path) != Get(u', f.path))
    ensures Changes(t, Merge(t, fs, form).value, fs) == Changes(u, Merge(u, fs, other).value, fs)
  {
    var t', u' := Merge(t, fs, form).value, Merge(u, fs, other).value;
    forall i | 0 <= i < |fs| ensures ChangesAlike(t, t', u, u', fs[i]) {
      assert fs[i] in fs;
      MergeReadsBack(t, fs, form, i);
      MergeReadsBack(u, fs, other, i);
      assert !fs[i].sensitive ==> Lookup(form, fs[i].name) == Lookup(other, fs[i].name);
    }
    ReportsAgree(t, t', u, u', fs);
  }

  lemma NamesTellFieldsApart(fs: seq<Field>, f: Field, g: Field)
    requires PrefixFree(fs) && f in fs && g in fs && f.name == g.name
    ensures f == g
  {
    var i :| 0 <= i < |fs| && fs[i] == f;
    var j :| 0 <= j < |fs| && fs[j] == g;
    assert i == j;
  }

  lemma ChangesNamed(t: Tree, t': Tree, fs: seq<Field>, f: Field)
    requires PrefixFree(fs) && f in fs
    ensures (exists c :: c in Changes(t, t', fs) && c.name == f.name) <==> Get(t, f.path) != Get(t', f.path)
  {
    if Get(t, f.path) != Get(t', f.path) {
      ChangesComplete(t, t', fs, f);
    } else if c :| c in Changes(t, t', fs) && c.name == f.name {
      ChangesSound(t, t', fs);
      var g :| g in fs && g.name == c.name && Get(t, g.path) != Get(t', g.path);
      NamesTellFieldsApart(fs, f, g);
    }
  }

  lemma {:induction false} ChangesSound(t: Tree, t': Tree, fs: seq<Field>)
    ensures forall c :: c in Changes(t, t', fs) ==>
              exists g :: g in fs && g.name == c.name && Get(t, g.path) != Get(t', g.path)
    decreases |fs|
  {
    if fs != [] {
      ChangesSound(t, t', Init(fs));
      assert Last(fs) in fs;
      assert forall g :: g in Init(fs) ==> g in fs;
    }
  }

  lemma {:induction false} ChangesComplete(t: Tree, t': Tree, fs: seq<Field>, f: Field)
    requires f in fs && Get(t, f.path) != Get(t', f.path)
    ensures exists c :: c in Changes(t, t', fs) && c.name == f.name
    decreases |fs|
  {
    if f in Init(fs) {
      ChangesComplete(t, t', Init(fs), f);
      var c :| c in Changes(t, t', Init(fs)) && c.name == f.name;
      assert c in Changes(t, t', fs);
    } else {
      assert f == Last(fs);
      assert Last(Changes(t, t', fs)) == ChangeOf(t, t', f);
      assert ChangeOf(t, t', f) in Changes(t, t', fs);
    }
  }

  /**
   A difference report lists exactly the fields a save would change, and is
   empty exactly when saving would leave the tree as it is.
   */
  lemma DiffIsExact(t: Tree, fs: seq<Field>, form: map<string, Tree>)
    requires PrefixFree(fs) && Merge(t, fs, form).Some?
    ensures var t' := Merge(t, fs, form).value;
            && (forall f :: f in fs ==>
                  ((exists c :: c in Changes(t, t', fs) && c.name == f.name)
                   <==> Expected(t, f, form) != Get(t, f.path)))
            && (Changes(t, t', fs) == [] <==> t' == t)
  {
    var t' := Merge(t, fs, form).value;
    forall f | f in fs ensures
      (exists c :: c in Changes(t, t', fs) && c.name == f.name) <==> Expected(t, f, form) != Get(t, f.path)
    {
      var k :| 0 <= k < |fs| && fs[k] == f;
      MergeReadsBack(t, fs, form, k);
      ChangesNamed(t, t', fs, f);
    }
    if Changes(t, t', fs) == [] {
      forall k | 0 <= k < |fs| && Submitted(fs[k], form).Some? ensures Get(t, fs[k].path) == Submitted(fs[k], form) {
        assert fs[k] in fs;
      }
      MergeOfCurrent(t, fs, form);
    } else {
      ChangesSound(t, t', fs);
      assert Changes(t, t', fs)[0] in Changes(t, t', fs);
    }
  }

  // ---------------------------------------------------------------------
  // The redacted projection
  // ---------------------------------------------------------------------

  /** The projection shown as raw text: present fields only, secrets replaced. */
  function Projected(acc: Tree, t: Tree, fs: seq<Field>): Option<Tree>
    decreases |fs|
  {
    if fs == [] then Some(acc)
    else if Get(t, fs[0].path).None? then Projected(acc, t, fs[1..])
    else
      match Set(acc, fs[0].path, Shown(t, fs[0]))
      case None => None
      case Some(acc') => Projected(acc', t, fs[1..])
  }

  method Raw(t: Tree, fs: seq<Field>) returns (projected: Option<Tree>)
    ensures projected == Projected(EMPTY, t, fs)
  {
    var acc := EMPTY;
    var i := 0;
    while i < |fs|
      invariant 0 <= i <= |fs|
      invariant Projected(EMPTY, t, fs) == Projected(acc, t, fs[i..])
    {
      var f := fs[i];
      assert fs[i..][0] == f && fs[i..][1..] == fs[i + 1..];
      var v := FieldValue(t, f.path);
      if v.Some? {
        match Set(acc, f.path, if f.sensitive then Str(REDACTED) else v.value) {
          case None => return None;
          case Some(acc') => acc := acc';
        }
      }
      i := i + 1;
    }
    projected := Some(acc);
  }

  lemma EmptyIsOpen(p: Path)
    ensures Open(EMPTY, p)
    decreases |p|
  {
    if |p| > 1 {
      EmptyIsOpen(p[1..]);
    }
  }

  lemma {:induction false} ProjectedSucceeds(acc: Tree, t: Tree, fs: seq<Field>)
    requires PrefixFree(fs) && forall i :: 0 <= i < |fs| ==> Open(acc, fs[i].path)
    ensures Projected(acc, t, fs).Some?
    decreases |fs|
  {
    if fs != [] {
      PrefixFreeTail(fs);
      if Get(t, fs[0].path).Some? {
        SetSucceedsIff(acc, fs[0].path, Shown(t, fs[0]));
        var acc' := Set(acc, fs[0].path, Shown(t, fs[0])).value;
        forall i | 0 <= i < |fs[1..]| ensures Open(acc', fs[1..][i].path) {
          assert fs[1..][i] == fs[i + 1];
          OpenAfterOther(acc, fs[0].path, Shown(t, fs[0]), fs[1..][i].path);
        }
        ProjectedSucceeds(acc', t, fs[1..]);
      } else {
        ProjectedSucceeds(acc, t, fs[1..]);
      }
    }
  }

  /** Two configurations that differ in the values of present secrets only. */
  predicate SameButSecrets(t: Tree, u: Tree, fs: seq<Field>) {
    forall f :: f in fs ==>
      if f.sensitive then Get(t, f.path).Some? == Get(u, f.path).Some? else Get(t, f.path) == Get(u, f.path)
  }

  predicate LooksSame(t: Tree, u: Tree, f: Field) {
    Get(t, f.path).Some? == Get(u, f.path).Some? && Shown(t, f) == Shown(u, f)
  }

  /** The projection touches only the paths of its fields. */
  lemma {:induction false} ProjectedFrame(acc: Tree, t: Tree, fs: seq<Field>, q: Path)
    requires Projected(acc, t, fs).Some? && forall f :: f in fs ==> Unrelated(f.path, q)
    ensures Get(Projected(acc, t, fs).value, q) == Get(acc, q)
    decreases |fs|
  {
    if fs != [] {
      var f := fs[0];
      assert f in fs && forall g :: g in fs[1..] ==> g in fs;
      if Get(t, f.path).Some? {
        var acc' := Set(acc, f.path, Shown(t, f)).value;
        GetSetOther(acc, f.path, Shown(t, f), q);
        ProjectedFrame(acc', t, fs[1..], q);
      } else {
        ProjectedFrame(acc, t, fs[1..], q);
      }
    }
  }

  /** What a field reads in the projection: what the form shows of it, if it is there. */
  lemma {:induction false} ProjectedReads(acc: Tree, t: Tree, fs: seq<Field>, i: nat)
    requires PrefixFree(fs) && i < |fs| && Projected(acc, t, fs).Some?
    ensures Get(Projected(acc, t, fs).value, fs[i].path)
         == if Get(t, fs[i].path).Some? then Some(Shown(t, fs[i])) else Get(acc, fs[i].path)
    decreases |fs|
  {
    var f := fs[0];
    PrefixFreeTail(fs);
    var present := Get(t, f.path).Some?;
    var acc' := if present then Set(acc, f.path, Shown(t, f)).value else acc;
    if i > 0 {
      assert fs[1..][i - 1] == fs[i];
      ProjectedReads(acc', t, fs[1..], i - 1);
      if present {
        GetSetOther(acc, f.path, Shown(t, f), fs[i].path);
      }
    } else {
      ProjectedFrame(acc', t, fs[1..], f.path);
      if present {
        GetSet(acc, f.path, Shown(t, f));
      }
    }
  }

  /** The projection shows the field as the form does, and nothing if the field is missing. */
  predicate ShowsField(projected: Tree, t: Tree, f: Field) {
    Get(projected, f.path) == if Get(t, f.path).Some? && f.sensitive then Some(Str("[REDACTED]")) else Get(t, f.path)
  }

  /** The projection shows every field, and nothing at any path that belongs to no field. */
  lemma ProjectionReads(t: Tree, fs: seq<Field>)
    requires PrefixFree(fs)
    ensures Projected(EMPTY, t, fs).Some?
    ensures forall i :: 0 <= i < |fs| ==> ShowsField(Projected(EMPTY, t, fs).value, t, fs[i])
    ensures forall q :: q != [] && (forall f :: f in fs ==> Unrelated(f.path, q)) ==>
              Get(Projected(EMPTY, t, fs).value, q) == None
  {
    forall i | 0 <= i < |fs| ensures Open(EMPTY, fs[i].path) {
      EmptyIsOpen(fs[i].path);
    }
    ProjectedSucceeds(EMPTY, t, fs);
    forall i | 0 <= i < |fs| ensures ShowsField(Projected(EMPTY, t, fs).value, t, fs[i]) {
      ProjectedReads(EMPTY, t, fs, i);
      NothingInEmpty(fs[i].path);
    }
    forall q | q != [] && forall f :: f in fs ==> Unrelated(f.path, q)
      ensures Get(Projected(EMPTY, t, fs).value, q) == None
    {
      ProjectedFrame(EMPTY, t, fs, q);
      NothingInEmpty(q);
    }
  }

  lemma {:induction false} ProjectedBlind(acc: Tree, t: Tree, u: Tree, fs: seq<Field>)
    requires forall i :: 0 <= i < |fs| ==> LooksSame(t, u, fs[i])
    ensures Projected(acc, t, fs) == Projected(acc, u, fs)
    decreases |fs|
  {
    if fs != [] {
      assert LooksSame(t, u, fs[0]);
      if Get(t, fs[0].path).None? {
        ProjectedBlind(acc, t, u, fs[1..]);
      } else {
        var next := Set(acc, fs[0].path, Shown(t, fs[0]));
        if next.Some? {
          ProjectedBlind(next.value, t, u, fs[1..]);
        }
      }
    }
  }

  lemma {:induction false} ValuesBlind(t: Tree, u: Tree, fs: seq<Field>)
    requires SameButSecrets(t, u, fs)
    ensures ValuesOf(t, fs) == ValuesOf(u, fs)
    decreases |fs|
  {
    if fs != [] {
      var f := Last(fs);
      assert f in fs;
      assert Shown(t, f) == Shown(u, f);
      assert SameButSecrets(t, u, Init(fs)) by { assert forall g :: g in Init(fs) ==> g in fs; }
      ValuesBlind(t, u, Init(fs));
    }
  }

  /**
   Reading never fails and never depends on a secret: configurations that differ
   in the values of present secrets only are shown identically, as values and as
   raw projection, whatever their unknown fields are.
   */
  lemma ReadingRevealsNoSecret(t: Tree, u: Tree, fs: seq<Field>)
    requires PrefixFree(fs) && SameButSecrets(t, u, fs)
    ensures ValuesOf(t, fs) == ValuesOf(u, fs)
    ensures Projected(EMPTY, t, fs).Some? && Projected(EMPTY, t, fs) == Projected(EMPTY, u, fs)
  {
    hide Projected, ValuesOf, Open;
    ValuesBlind(t, u, fs);
    assert forall i :: 0 <= i < |fs| ==> fs[i] in fs;
    ProjectedBlind(EMPTY, t, u, fs);
    forall i | 0 <= i < |fs| ensures Open(EMPTY, fs[i].path) {
      EmptyIsOpen(fs[i].path);
    }
    ProjectedSucceeds(EMPTY, t, fs);
  }

  // ---------------------------------------------------------------------
  // Validation
  // ---------------------------------------------------------------------

  /** Booleans and numbers are checked; a text field may be given anything. */
  predicate TypeOk(f: Field, v: Tree) {
    match f.kind case Boolean => v.Bool? case Number => v.Num? case Text => true
  }

  /** What is submitted for the field, if anything, has its type. */
  predicate FieldOk(f: Field, form: map<string, Tree>) {
    Submitted(f, form).Some? ==> TypeOk(f, Submitted(f, form).value)
  }

  /** The names of the fields whose submitted value has the wrong type. */
  function Mistyped(fs: seq<Field>, form: map<string, Tree>): seq<string> {
    if fs == [] then []
    else if Submitted(Last(fs), form).Some? && !TypeOk(Last(fs), Submitted(Last(fs), form).value)
    then Mistyped(Init(fs), form) + [Last(fs).name]
    else Mistyped(Init(fs), form)
  }

  /** A value is submitted for the field, and it is no boolean or no number where it should be one. */
  predicate Wrong(f: Field, form: map<string, Tree>) {
    && f.name in form && !(f.sensitive && IsPlaceholder(form[f.name]))
    && ((f.kind == Boolean && !form[f.name].Bool?) || (f.kind == Number && !form[f.name].Num?))
  }

  lemma {:induction false} MistypedAreWrong(fs: seq<Field>, form: map<string, Tree>)
    ensures forall name :: name in Mistyped(fs, form) <==>
              exists k :: 0 <= k < |fs| && fs[k].name == name && Wrong(fs[k], form)
    decreases |fs|
  {
    hide Wrong, Submitted, TypeOk;
    if fs != [] {
      MistypedAreWrong(Init(fs), form);
      WrongIff(Last(fs), form);
      assert forall k :: 0 <= k < |fs| - 1 ==> Init(fs)[k] == fs[k];
      assert Last(fs) == fs[|fs| - 1];
    }
  }

  lemma WrongIff(f: Field, form: map<string, Tree>)
    ensures Wrong(f, form) <==> Submitted(f, form).Some? && !TypeOk(f, Submitted(f, form).value)
  {
  }

  /** A form is accepted exactly if it is an object without a wrong value, and else each wrong field is named. */
  method ValidateValues(fs: seq<Field>, values: Tree) returns (ok: bool, errors: seq<string>)
    ensures values.Obj? ==> errors == Mistyped(fs, values.members)
    ensures ok <==>
              values.Obj? && forall f :: f in fs && f.name in values.members ==>
                || (f.sensitive && IsPlaceholder(values.members[f.name]))
                || (f.kind.Boolean? && values.members[f.name].Bool?)
                || (f.kind.Number? && values.members[f.name].Num?)
                || f.kind.Text?
    ensures values.Obj? ==> forall name :: name in errors <==>
              exists k :: 0 <= k < |fs| && fs[k].name == name && Wrong(fs[k], values.members)
  {
    errors := [];
    if !values.Obj? { return false, [""]; }
    var i := 0;
    while i < |fs|
      invariant 0 <= i <= |fs|
      invariant errors == Mistyped(fs[..i], values.members)
      invariant errors == [] <==> forall j :: 0 <= j < i ==> !Wrong(fs[j], values.members)
    {
      var f := fs[i];
      if f.name in values.members {
        var v := values.members[f.name];
        if !(f.sensitive && IsPlaceholder(v)) && !TypeOk(f, v) {
          errors := errors + [f.name];
        }
      }
      i := i + 1;
      assert Init(fs[..i]) == fs[..i - 1];
    }
    assert fs[..|fs|] == fs;
    MistypedAreWrong(fs, values.members);
    ok := errors == [];
  }

  /** A form has no mistyped field exactly when every submitted value has its field's type. */
  lemma {:induction false} NothingMistypedIff(fs: seq<Field>, form: map<string, Tree>)
    ensures Mistyped(fs, form) == [] <==> forall i :: 0 <= i < |fs| ==> FieldOk(fs[i], form)
    decreases |fs|
  {
    if fs != [] {
      NothingMistypedIff(Init(fs), form);
      assert forall i :: 0 <= i < |fs| - 1 ==> fs[i] == Init(fs)[i];
      assert Last(fs) == fs[|fs| - 1];
    }
  }
}
