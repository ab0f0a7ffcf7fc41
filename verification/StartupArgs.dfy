/**
 Startup arguments: a JSON object checked against an allowlist of specs and
 written as a command line, and the reading of that command line.
 */
module StartupArgs {
  import opened Prelude
  import Utf8

  datatype Value = Bool(b: bool) | Int(n: int) | Text(s: string) | OtherValue

  datatype Kind = Boolean | Integer | Str | Unsupported(name: string)

  datatype Spec = Spec(
    key: string,
    flag: string,
    kind: Kind,
    required: bool,
    min: Option<I64>,
    max: Option<I64>,
    maxLen: Option<nat>,
    allowedValues: seq<string>)

  /** The submitted JSON: an object, its members in iteration order, or something else. */
  datatype Args = Object(members: seq<(string, Value)>) | NotObject

  datatype Error =
    | NotAnObject
    | NotAllowlisted(key: string)
    | Required(key: string)
    | WrongType(key: string)
    | OutOfRange(key: string)
    | BadContent(key: string)
    | NotAllowed(key: string)
    | UnsupportedKind(key: string)

  datatype Result<+T> = Ok(value: T) | Err(error: Error)

  const I64_MIN: int := -0x8000_0000_0000_0000
  const I64_MAX: int := 0x7fff_ffff_ffff_ffff

  type I64 = n: int | I64_MIN <= n <= I64_MAX

  // ---------------------------------------------------------------------
  // Numbers as text
  // ---------------------------------------------------------------------

  function Digit(d: nat): char
    requires d < 10
  {
    '0' + d as char
  }

  function Digits(n: nat): (s: string)
    ensures s != "" && forall k :: 0 <= k < |s| ==> '0' <= s[k] <= '9'
  {
    if n < 10 then [Digit(n)] else Digits(n / 10) + [Digit(n % 10)]
  }

  function Decimal(n: int): string { if n < 0 then ['-'] + Digits(-n) else Digits(n) }

  function ReadDigits(s: string): Option<nat> {
    if s == "" || !('0' <= Last(s) <= '9') then None
    else
      var d := Last(s) as int - '0' as int;
      if |s| == 1 then Some(d)
      else
        var high := ReadDigits(Init(s));
        if high.None? then None else Some(10 * high.value + d)
  }

  function ReadDecimal(s: string): Option<int> {
    if s != "" && s[0] == '-' then
      var n := ReadDigits(s[1..]);
      if n.None? then None else Some(0 - n.value)
    else
      var n := ReadDigits(s);
      if n.None? then None else Some(n.value)
  }

  /** How numbers are written, digit by digit. */
  lemma DecimalIs(n: nat, d: nat)
    requires d < 10
    ensures Decimal(d) == ["0123456789"[d]]
    ensures n > 0 ==> Decimal(10 * n + d) == Decimal(n) + ["0123456789"[d]]
    ensures n > 0 ==> Decimal(0 - n) == ['-'] + Decimal(n)
  {
    assert (10 * n + d) / 10 == n && (10 * n + d) % 10 == d;
  }

  lemma {:induction false} DigitsReadBack(n: nat)
    ensures ReadDigits(Digits(n)) == Some(n)
  {
    if n >= 10 {
      DigitsReadBack(n / 10);
      assert Init(Digits(n)) == Digits(n / 10);
    }
  }

  lemma DecimalReadsBack(n: int)
    ensures ReadDecimal(Decimal(n)) == Some(n)
  {
    if n < 0 {
      DigitsReadBack(-n);
      assert Decimal(n)[1..] == Digits(-n);
      assert ReadDigits(Digits(-n)) == Some(-n);
    } else {
      DigitsReadBack(n);
      assert '0' <= Digits(n)[0] <= '9';
      assert ReadDigits(Digits(n)) == Some(n);
    }
  }

  // ---------------------------------------------------------------------
  // Validation and encoding
  // ---------------------------------------------------------------------

  predicate Supported(k: Kind) { !k.Unsupported? }

  predicate SpecOk(s: Spec) {
    && s.key != "" && s.flag != "" && '\0' !in s.flag && Supported(s.kind)
    && (s.min.Some? && s.max.Some? ==> s.min.value <= s.max.value)
  }

  predicate SpecsOk(specs: seq<Spec>) {
    && (forall i :: 0 <= i < |specs| ==> SpecOk(specs[i]))
    && (forall i, j :: 0 <= i < j < |specs| ==> specs[i].key != specs[j].key)
  }

  method ValidateArgSpecs(specs: seq<Spec>) returns (ok: bool)
    ensures ok <==>
              && (forall i :: 0 <= i < |specs| ==>
                    && specs[i].key != "" && specs[i].flag != "" && '\0' !in specs[i].flag
                    && (specs[i].kind.Str? || specs[i].kind.Integer? || specs[i].kind.Boolean?)
                    && (specs[i].min.Some? && specs[i].max.Some? ==> specs[i].min.value <= specs[i].max.value))
              && (forall i, j :: 0 <= i < j < |specs| ==> specs[i].key != specs[j].key)
    ensures ok <==> SpecsOk(specs)
  {
    var keys: set<string> := {};
    for i := 0 to |specs|
      invariant SpecsOk(specs[..i])
      invariant forall k :: k in keys <==> exists j :: 0 <= j < i && specs[j].key == k
    {
      var s := specs[i];
      assert forall j :: 0 <= j < i ==> specs[..i][j] == specs[j];
      assert specs[..i + 1] == specs[..i] + [s];
      if s.key == "" || s.flag == "" || '\0' in s.flag {
        return false;
      }
      if s.key in keys {
        return false;
      }
      keys := keys + {s.key};
      if s.kind.Unsupported? {
        return false;
      }
      if s.min.Some? && s.max.Some? && s.min.value > s.max.value {
        return false;
      }
    }
    assert specs[..|specs|] == specs;
    ok := true;
  }

  /** The effective length limit: 256 unless given, and between 1 and 4096. */
  function MaxLen(s: Spec): nat {
    var m := if s.maxLen.Some? then s.maxLen.value else 256;
    if m < 1 then 1 else if m > 4096 then 4096 else m
  }

  predicate InRange(s: Spec, n: int) {
    (s.min.Some? ==> s.min.value <= n) && (s.max.Some? ==> n <= s.max.value)
  }

  /** The length of a text is counted in bytes of its UTF-8 form. */
  predicate TextOk(s: Spec, t: string) { t != "" && |Utf8.Bytes(t)| <= MaxLen(s) && '\0' !in t }

  predicate IsAllowed(s: Spec, t: string) { s.allowedValues == [] || t in s.allowedValues }

  /** The words that one present argument adds to the command line. */
  function Words(s: Spec, v: Value): Result<seq<string>> {
    match s.kind
    case Boolean =>
      if !v.Bool? then Err(WrongType(s.key)) else Ok(if v.b then [s.flag] else [])
    case Integer =>
      if !v.Int? || !(I64_MIN <= v.n <= I64_MAX) then Err(WrongType(s.key))
      else if !InRange(s, v.n) then Err(OutOfRange(s.key))
      else Ok([s.flag, Decimal(v.n)])
    case Str =>
      if !v.Text? then Err(WrongType(s.key))
      else if !TextOk(s, v.s) then Err(BadContent(s.key))
      else if !IsAllowed(s, v.s) then Err(NotAllowed(s.key))
      else Ok([s.flag, v.s])
    case Unsupported(_) => Err(UnsupportedKind(s.key))
  }

  function Get(members: seq<(string, Value)>, key: string): Option<Value> {
    if members == [] then None else if members[0].0 == key then Some(members[0].1) else Get(members[1..], key)
  }

  function SpecWords(s: Spec, v: Option<Value>): Result<seq<string>> {
    if v.None? then if s.required then Err(Required(s.key)) else Ok([]) else Words(s, v.value)
  }

  /** A switch: present or not, and if it is present it must be a boolean. */
  lemma SwitchWords(s: Spec, v: Option<Value>)
    requires s.kind.Boolean?
    ensures SpecWords(s, v) == Err(Required(s.key)) <==> v.None? && s.required
    ensures SpecWords(s, v) == Err(WrongType(s.key)) <==> v.Some? && !v.value.Bool?
    ensures SpecWords(s, v) == Ok([]) <==> (v.None? && !s.required) || v == Some(Bool(false))
    ensures SpecWords(s, v) == Ok([s.flag]) <==> v == Some(Bool(true))
  {
  }

  /** A number: it must fit 64 bits and lie within the bounds that are given. */
  lemma NumberWords(s: Spec, v: Option<Value>)
    requires s.kind.Integer?
    ensures SpecWords(s, v) == Err(Required(s.key)) <==> v.None? && s.required
    ensures SpecWords(s, v) == Ok([]) <==> v.None? && !s.required
    ensures SpecWords(s, v) == Err(WrongType(s.key)) <==>
              v.Some? && (v.value.Int? ==> v.value.n < -0x8000_0000_0000_0000 || v.value.n > 0x7fff_ffff_ffff_ffff)
    ensures v.Some? && v.value.Int? && -0x8000_0000_0000_0000 <= v.value.n <= 0x7fff_ffff_ffff_ffff ==>
              && var n := v.value.n;
              && (SpecWords(s, v) == Err(OutOfRange(s.key)) <==>
                    (s.min.Some? && n < s.min.value) || (s.max.Some? && n > s.max.value))
              && (SpecWords(s, v) == Ok([s.flag, Decimal(n)]) <==>
                    (s.min.Some? ==> s.min.value <= n) && (s.max.Some? ==> n <= s.max.value))
  {
  }

  /** A text: not empty, no NUL, not too long in bytes, and one of the allowed values if any are given. */
  lemma TextWords(s: Spec, v: Option<Value>)
    requires s.kind.Str?
    ensures SpecWords(s, v) == Err(Required(s.key)) <==> v.None? && s.required
    ensures SpecWords(s, v) == Ok([]) <==> v.None? && !s.required
    ensures SpecWords(s, v) == Err(WrongType(s.key)) <==> v.Some? && !v.value.Text?
    ensures v.Some? && v.value.Text? ==>
              && var t := v.value.s;
              && var limit := if s.maxLen.None? then 256
                              else if s.maxLen.value < 1 then 1
                              else if s.maxLen.value > 4096 then 4096 else s.maxLen.value;
              && var bad := t == "" || |Utf8.Bytes(t)| > limit || '\0' in t;
              && (SpecWords(s, v) == Err(BadContent(s.key)) <==> bad)
              && (SpecWords(s, v) == Err(NotAllowed(s.key)) <==>
                    !bad && s.allowedValues != [] && t !in s.allowedValues)
              && (SpecWords(s, v) == Ok([s.flag, t]) <==> !bad && (s.allowedValues == [] || t in s.allowedValues))
  {
  }

  function Prepend(argv: seq<string>, r: Result<seq<string>>): Result<seq<string>> {
    if r.Ok? then Ok(argv + r.value) else r
  }

  /** The words of all specs, in their order; the first failure wins. */
  function AllWords(specs: seq<Spec>, members: seq<(string, Value)>): Result<seq<string>> {
    if specs == [] then Ok([])
    else
      var first := SpecWords(specs[0], Get(members, specs[0].key));
      if first.Err? then first
      else
        Prepend(first.value, AllWords(specs[1..], members))
  }

  predicate Allowlisted(specs: seq<Spec>, key: string) { exists i :: 0 <= i < |specs| && specs[i].key == key }

  /** The first member whose key no spec has. */
  function Stranger(specs: seq<Spec>, members: seq<(string, Value)>): Option<string> {
    if members == [] then None
    else if !Allowlisted(specs, members[0].0) then Some(members[0].0)
    else Stranger(specs, members[1..])
  }

  function Encoded(specs: seq<Spec>, args: Args): Result<seq<string>> {
    if args.NotObject? then Err(NotAnObject)
    else
      var stranger := Stranger(specs, args.members);
      if stranger.Some? then Err(NotAllowlisted(stranger.value)) else AllWords(specs, args.members)
  }

  lemma {:induction false} StrangerOfSuffix(specs: seq<Spec>, members: seq<(string, Value)>, i: nat)
    requires i <= |members| && forall k :: 0 <= k < i ==> Allowlisted(specs, members[k].0)
    ensures Stranger(specs, members) == Stranger(specs, members[i..])
    decreases i
  {
    if i == 0 {
      assert members[0..] == members;
    } else {
      StrangerOfSuffix(specs, members, i - 1);
      assert members[i - 1..][1..] == members[i..];
    }
  }

  /** The checks on one present value, and the words pushed for it. */
  method CheckValue(s: Spec, v: Value) returns (r: Result<seq<string>>)
    ensures r == Words(s, v)
  {
    match s.kind {
      case Boolean =>
        if !v.Bool? {
          return Err(WrongType(s.key));
        }
        r := Ok(if v.b then [s.flag] else []);
      case Integer =>
        if !v.Int? || v.n < I64_MIN || v.n > I64_MAX {
          return Err(WrongType(s.key));
        }
        if (s.min.Some? && v.n < s.min.value) || (s.max.Some? && v.n > s.max.value) {
          return Err(OutOfRange(s.key));
        }
        r := Ok([s.flag, Decimal(v.n)]);
      case Str =>
        if !v.Text? {
          return Err(WrongType(s.key));
        }
        if v.s == "" || |Utf8.Bytes(v.s)| > MaxLen(s) || '\0' in v.s {
          return Err(BadContent(s.key));
        }
        if s.allowedValues != [] && v.s !in s.allowedValues {
          return Err(NotAllowed(s.key));
        }
        r := Ok([s.flag, v.s]);
      case Unsupported(_) =>
        r := Err(UnsupportedKind(s.key));
    }
  }

  method ValidateStartupArgs(specs: seq<Spec>, args: Args) returns (r: Result<seq<string>>)
    ensures r == Encoded(specs, args)
  {
    if args.NotObject? {
      return Err(NotAnObject);
    }
    var members := args.members;
    for i := 0 to |members|
      invariant forall k :: 0 <= k < i ==> Allowlisted(specs, members[k].0)
    {
      if !Allowlisted(specs, members[i].0) {
        StrangerOfSuffix(specs, members, i);
        return Err(NotAllowlisted(members[i].0));
      }
    }
    StrangerOfSuffix(specs, members, |members|);
    r := Collect(specs, members);
  }

  /** The loop over the specs. */
  method Collect(specs: seq<Spec>, members: seq<(string, Value)>) returns (r: Result<seq<string>>)
    ensures r == AllWords(specs, members)
  {
    var argv: seq<string> := [];
    assert specs[0..] == specs;
    PrependTwice([], [], AllWords(specs, members));
    for i := 0 to |specs|
      invariant AllWords(specs, members) == Prepend(argv, AllWords(specs[i..], members))
    {
      var s := specs[i];
      assert specs[i..][1..] == specs[i + 1..];
      var v := Get(members, s.key);
      if v.None? {
        if s.required {
          return Err(Required(s.key));
        }
        PrependTwice(argv, [], AllWords(specs[i + 1..], members));
        continue;
      }
      var words := CheckValue(s, v.value);
      if words.Err? {
        return words;
      }
      PrependTwice(argv, words.value, AllWords(specs[i + 1..], members));
      argv := argv + words.value;
    }
    assert argv + [] == argv;
    r := Ok(argv);
  }

  lemma PrependTwice(a: seq<string>, b: seq<string>, r: Result<seq<string>>)
    ensures Prepend([], r) == r && Prepend(a, Prepend([], r)) == Prepend(a, r)
    ensures Prepend(a, Prepend(b, r)) == Prepend(a + b, r)
  {
    if r.Ok? {
      assert [] + r.value == r.value;
      assert a + (b + r.value) == a + b + r.value;
    }
  }

  // ---------------------------------------------------------------------
  // When encoding succeeds
  // ---------------------------------------------------------------------

  /** The value suits the spec. */
  predicate Suits(s: Spec, v: Value) {
    match s.kind
    case Boolean => v.Bool?
    case Integer => v.Int? && I64_MIN <= v.n <= I64_MAX && InRange(s, v.n)
    case Str => v.Text? && TextOk(s, v.s) && IsAllowed(s, v.s)
    case Unsupported(_) => false
  }

  predicate Accepts(s: Spec, members: seq<(string, Value)>) {
    var v := Get(members, s.key);
    (s.required ==> v.Some?) && (v.Some? ==> Suits(s, v.value))
  }

  lemma {:induction false} AllWordsSucceedIff(specs: seq<Spec>, members: seq<(string, Value)>)
    ensures AllWords(specs, members).Ok? <==> forall i :: 0 <= i < |specs| ==> Accepts(specs[i], members)
    ensures AllWords(specs, members).Ok? ==> |AllWords(specs, members).value| <= 2 * |specs|
    decreases |specs|
  {
    if specs != [] {
      AllWordsSucceedIff(specs[1..], members);
      assert forall i :: 0 <= i < |specs[1..]| ==> specs[1..][i] == specs[i + 1];
      assert SpecWords(specs[0], Get(members, specs[0].key)).Ok? <==> Accepts(specs[0], members);
      if forall i :: 0 <= i < |specs[1..]| ==> Accepts(specs[1..][i], members) {
        forall i | 1 <= i < |specs| ensures Accepts(specs[i], members) {
          assert Accepts(specs[1..][i - 1], members);
        }
      }
    }
  }

  lemma {:induction false} NoStrangerIff(specs: seq<Spec>, members: seq<(string, Value)>)
    ensures Stranger(specs, members).None? <==> forall k :: 0 <= k < |members| ==> Allowlisted(specs, members[k].0)
    decreases |members|
  {
    if members != [] {
      NoStrangerIff(specs, members[1..]);
      if Stranger(specs, members).None? {
        forall k | 1 <= k < |members| ensures Allowlisted(specs, members[k].0) {
          assert members[1..][k - 1] == members[k];
        }
      }
    }
  }

  /** Spec `i` refuses the submission, and none before it does. */
  predicate FirstRefusal(specs: seq<Spec>, members: seq<(string, Value)>, i: nat, e: Error) {
    && i < |specs| && SpecWords(specs[i], Get(members, specs[i].key)) == Err(e)
    && forall p :: 0 <= p < i ==> SpecWords(specs[p], Get(members, specs[p].key)).Ok?
  }

  lemma {:induction false} AllWordsFailWith(specs: seq<Spec>, members: seq<(string, Value)>, e: Error)
    ensures AllWords(specs, members) == Err(e) <==> exists i: nat :: FirstRefusal(specs, members, i, e)
    decreases |specs|
  {
    hide SpecWords;
    if specs != [] {
      AllWordsFailWith(specs[1..], members, e);
      if SpecWords(specs[0], Get(members, specs[0].key)) == Err(e) {
        assert FirstRefusal(specs, members, 0, e);
      }
      if i: nat :| FirstRefusal(specs[1..], members, i, e) {
        if SpecWords(specs[0], Get(members, specs[0].key)).Ok? {
          assert forall p :: 0 < p < i + 1 ==> specs[p] == specs[1..][p - 1];
          assert FirstRefusal(specs, members, i + 1, e);
        }
      }
      if i: nat :| FirstRefusal(specs, members, i, e) {
        if i > 0 {
          assert SpecWords(specs[0], Get(members, specs[0].key)).Ok?;
          assert forall p :: 0 <= p < i - 1 ==> specs[1..][p] == specs[p + 1];
          assert FirstRefusal(specs[1..], members, i - 1, e);
        }
      }
    }
  }

  /** The first member whose key is not allowlisted. */
  predicate FirstStranger(specs: seq<Spec>, members: seq<(string, Value)>, k: nat) {
    k < |members| && !Allowlisted(specs, members[k].0) && forall n :: 0 <= n < k ==> Allowlisted(specs, members[n].0)
  }

  lemma {:induction false} StrangerIs(specs: seq<Spec>, members: seq<(string, Value)>, key: string)
    ensures Stranger(specs, members) == Some(key) <==>
              exists k: nat :: FirstStranger(specs, members, k) && members[k].0 == key
    decreases |members|
  {
    if k: nat :| FirstStranger(specs, members, k) {
      StrangerOfSuffix(specs, members, k);
      assert members[k..][0] == members[k];
      assert forall n: nat :: FirstStranger(specs, members, n) ==> n == k;
    } else {
      NoStrangerIff(specs, members);
      if n :| 0 <= n < |members| && !Allowlisted(specs, members[n].0) {
        EarliestStranger(specs, members, n);
      }
    }
  }

  lemma {:induction false} EarliestStranger(specs: seq<Spec>, members: seq<(string, Value)>, n: nat)
    requires n < |members| && !Allowlisted(specs, members[n].0)
    ensures exists k: nat :: FirstStranger(specs, members, k)
    decreases n
  {
    if m :| 0 <= m < n && !Allowlisted(specs, members[m].0) {
      EarliestStranger(specs, members, m);
    } else {
      assert FirstStranger(specs, members, n);
    }
  }

  /**
   Which error is answered: the shape of the submission comes first, then its first
   key that is not allowlisted, then the first spec that refuses.
   */
  lemma EncodingFailsWith(specs: seq<Spec>, args: Args, e: Error)
    ensures Encoded(specs, args) == Err(e) <==>
              || (args.NotObject? && e == NotAnObject)
              || (args.Object? && exists k: nat ::
                    FirstStranger(specs, args.members, k) && e == NotAllowlisted(args.members[k].0))
              || (args.Object? && (forall k :: 0 <= k < |args.members| ==> Allowlisted(specs, args.members[k].0))
                  && exists i: nat :: FirstRefusal(specs, args.members, i, e))
  {
    if args.Object? {
      NoStrangerIff(specs, args.members);
      AllWordsFailWith(specs, args.members, e);
      if Stranger(specs, args.members).Some? {
        StrangerIs(specs, args.members, Stranger(specs, args.members).value);
      }
    }
  }

  /**
   Encoding succeeds exactly when every key is allowlisted, every required key is
   present and every present value suits its spec; a command line then has at
   most two words per spec.
   */
  lemma EncodingSucceedsIff(specs: seq<Spec>, members: seq<(string, Value)>)
    ensures Encoded(specs, Object(members)).Ok?
       <==> && (forall k :: 0 <= k < |members| ==> Allowlisted(specs, members[k].0))
            && (forall i :: 0 <= i < |specs| ==> Accepts(specs[i], members))
    ensures Encoded(specs, Object(members)).Ok? ==> |Encoded(specs, Object(members)).value| <= 2 * |specs|
  {
    NoStrangerIff(specs, members);
    AllWordsSucceedIff(specs, members);
  }

  // ---------------------------------------------------------------------
  // Reading a command line back
  // ---------------------------------------------------------------------

  /** The command line read against the specs in their order. */
  function Decoded(specs: seq<Spec>, argv: seq<string>): Option<map<string, Value>> {
    if specs == [] then if argv == [] then Some(map[]) else None
    else
      var s := specs[0];
      if argv == [] || argv[0] != s.flag then Decoded(specs[1..], argv)
      else if s.kind.Boolean? then With(s.key, Bool(true), Decoded(specs[1..], argv[1..]))
      else if |argv| < 2 then None
      else if s.kind.Str? then With(s.key, Text(argv[1]), Decoded(specs[1..], argv[2..]))
      else
        var n := ReadDecimal(argv[1]);
        if n.None? then None else With(s.key, Int(n.value), Decoded(specs[1..], argv[2..]))
  }

  function With(key: string, v: Value, r: Option<map<string, Value>>): Option<map<string, Value>> {
    if r.Some? then Some(r.value[key := v]) else None
  }

  /** The arguments the specs name, without those that are `false`. */
  function Submitted(specs: seq<Spec>, members: seq<(string, Value)>): map<string, Value> {
    if specs == [] then map[]
    else
      var rest := Submitted(specs[1..], members);
      var v := Get(members, specs[0].key);
      if v.Some? && v.value != Bool(false) then rest[specs[0].key := v.value] else rest
  }

  /** The spec may add no words to the command line of an accepted submission. */
  predicate Skippable(s: Spec) { !s.required || s.kind.Boolean? }

  /** Some value of the spec is accepted and adds words. */
  predicate CanWork(s: Spec) {
    match s.kind
    case Boolean => true
    case Integer => s.min.Some? && s.max.Some? ==> s.min.value <= s.max.value
    case Str => s.allowedValues == [] || exists t :: t in s.allowedValues && TextOk(s, t)
    case Unsupported(_) => false
  }

  /** Spec `j` has the flag of an earlier spec `i`, and all specs from `i` up to `j` may be silent. */
  predicate ClashAt(specs: seq<Spec>, i: nat, j: nat) {
    && i < j < |specs| && specs[i].flag == specs[j].flag && CanWork(specs[j])
    && forall p :: i <= p < j ==> Skippable(specs[p])
  }

  predicate Clash(specs: seq<Spec>) {
    exists i, j :: 0 <= i < j < |specs| && ClashAt(specs, i, j)
  }

  lemma NoWordsMeansSkippable(s: Spec, v: Option<Value>)
    requires SpecWords(s, v) == Ok([])
    ensures Skippable(s)
    ensures v.None? || v == Some(Bool(false))
  {
  }

  lemma WordsMeanCanWork(s: Spec, v: Option<Value>)
    requires SpecWords(s, v).Ok? && v.Some?
    ensures CanWork(s)
  {
  }

  /** The first word, if there is one, is the flag of the first spec that is not silent. */
  lemma {:induction false} StartsWithFlag(specs: seq<Spec>, members: seq<(string, Value)>) returns (i: nat)
    requires AllWords(specs, members).Ok? && AllWords(specs, members).value != []
    ensures i < |specs| && AllWords(specs, members).value[0] == specs[i].flag && CanWork(specs[i])
    ensures forall p :: 0 <= p < i ==> Skippable(specs[p])
    decreases |specs|
  {
    var v := Get(members, specs[0].key);
    var first := SpecWords(specs[0], v).value;
    if first != [] {
      i := 0;
      WordsMeanCanWork(specs[0], v);
    } else {
      NoWordsMeansSkippable(specs[0], v);
      assert AllWords(specs, members).value == AllWords(specs[1..], members).value;
      var j := StartsWithFlag(specs[1..], members);
      i := j + 1;
      assert forall p :: 0 <= p < j ==> specs[1..][p] == specs[p + 1];
      forall p | 0 <= p < i ensures Skippable(specs[p]) {
        if p > 0 {
          assert Skippable(specs[1..][p - 1]);
        }
      }
    }
  }

  lemma ClashOfTail(specs: seq<Spec>)
    requires specs != [] && Clash(specs[1..])
    ensures Clash(specs)
  {
    var i, j :| 0 <= i < j < |specs[1..]| && ClashAt(specs[1..], i, j);
    assert forall p :: i <= p <= j ==> specs[1..][p] == specs[p + 1];
    forall p | i + 1 <= p < j + 1 ensures Skippable(specs[p]) {
      assert Skippable(specs[1..][p - 1]);
    }
    assert ClashAt(specs, i + 1, j + 1);
  }

  lemma {:induction false} WordsReadBack(specs: seq<Spec>, members: seq<(string, Value)>)
    requires !Clash(specs) && AllWords(specs, members).Ok?
    ensures Decoded(specs, AllWords(specs, members).value) == Some(Submitted(specs, members))
    decreases |specs|
  {
    if specs != [] {
      var s := specs[0];
      var v := Get(members, s.key);
      var first := SpecWords(s, v).value;
      var rest := AllWords(specs[1..], members).value;
      var argv := first + rest;
      if Clash(specs[1..]) {
        ClashOfTail(specs);
        assert false;
      }
      WordsReadBack(specs[1..], members);
      if first == [] {
        assert argv == rest;
        NoWordsMeansSkippable(s, v);
        if rest != [] {
          var i := StartsWithFlag(specs[1..], members);
          assert specs[1..][i] == specs[i + 1];
          assert forall p :: 1 <= p < i + 1 ==> specs[p] == specs[1..][p - 1];
          assert !ClashAt(specs, 0, i + 1);
        }
      } else {
        HeadReadsBack(specs, members);
      }
    }
  }

  /** Words of the first spec are read as that spec's, and the rest by the other specs. */
  lemma HeadReadsBack(specs: seq<Spec>, members: seq<(string, Value)>)
    requires specs != [] && AllWords(specs, members).Ok?
    requires SpecWords(specs[0], Get(members, specs[0].key)) != Ok([])
    ensures var v := Get(members, specs[0].key);
            && v.Some? && v != Some(Bool(false))
            && Decoded(specs, AllWords(specs, members).value)
            == With(specs[0].key, v.value, Decoded(specs[1..], AllWords(specs[1..], members).value))
  {
    var s := specs[0];
    var v := Get(members, s.key);
    var first := SpecWords(s, v).value;
    var rest := AllWords(specs[1..], members).value;
    var argv := first + rest;
    assert argv[|first|..] == rest && argv[0] == s.flag;
    if s.kind.Integer? {
      assert argv[1] == Decimal(v.value.n);
      DecimalReadsBack(v.value.n);
    }
  }

  /** Which arguments those are: the submitted ones, but for the booleans that are off. */
  lemma {:induction false} SubmittedIs(specs: seq<Spec>, members: seq<(string, Value)>, key: string)
    ensures Lookup(Submitted(specs, members), key)
         == if Allowlisted(specs, key) && Get(members, key) != Some(Bool(false)) then Get(members, key) else None
    decreases |specs|
  {
    if specs != [] {
      SubmittedIs(specs[1..], members, key);
      assert forall i :: 0 <= i < |specs[1..]| ==> specs[1..][i] == specs[i + 1];
      if Allowlisted(specs, key) && specs[0].key != key {
        var i :| 0 <= i < |specs| && specs[i].key == key;
        assert specs[1..][i - 1].key == key;
      }
      if Allowlisted(specs[1..], key) {
        var i :| 0 <= i < |specs[1..]| && specs[1..][i].key == key;
        assert specs[i + 1].key == key;
      }
    }
  }

  lemma {:induction false} GetIsMember(members: seq<(string, Value)>, key: string)
    ensures Get(members, key).Some? <==> exists k :: 0 <= k < |members| && members[k].0 == key
    ensures Get(members, key).Some? ==> (key, Get(members, key).value) in members
    decreases |members|
  {
    if members != [] {
      GetIsMember(members[1..], key);
      if members[0].0 != key {
        if k :| 0 <= k < |members| && members[k].0 == key {
          assert members[1..][k - 1].0 == key;
        }
        if k :| 0 <= k < |members[1..]| && members[1..][k].0 == key {
          assert members[k + 1].0 == key;
        }
      }
    }
  }

  /** The command line of an accepted submission gives back every argument but the `false` ones. */
  ghost predicate ReadsBack(specs: seq<Spec>, members: seq<(string, Value)>)
    requires Encoded(specs, Object(members)).Ok?
  {
    var r := Decoded(specs, Encoded(specs, Object(members)).value);
    && r.Some?
    && forall key :: Lookup(r.value, key)
                  == if Get(members, key) == Some(Bool(false)) then None else Get(members, key)
  }

  lemma ReadsBackMeans(specs: seq<Spec>, members: seq<(string, Value)>)
    requires Encoded(specs, Object(members)).Ok?
    ensures ReadsBack(specs, members)
       <==> Decoded(specs, AllWords(specs, members).value) == Some(Submitted(specs, members))
  {
    NoStrangerIff(specs, members);
    var m := Submitted(specs, members);
    forall key
      ensures Lookup(m, key) == if Get(members, key) == Some(Bool(false)) then None else Get(members, key)
    {
      SubmittedIs(specs, members, key);
      GetIsMember(members, key);
    }
    var r := Decoded(specs, AllWords(specs, members).value);
    if ReadsBack(specs, members) {
      forall key ensures Lookup(r.value, key) == Lookup(m, key) {
      }
      LookupDetermines(r.value, m);
    }
  }

  lemma LookupDetermines(a: map<string, Value>, b: map<string, Value>)
    requires forall key :: Lookup(a, key) == Lookup(b, key)
    ensures a == b
  {
    forall key ensures key in a <==> key in b {
      assert Lookup(a, key) == Lookup(b, key);
    }
    forall key | key in a ensures a[key] == b[key] {
      assert Lookup(a, key) == Lookup(b, key);
    }
  }

  /** Without a clash of flags every accepted submission reads back. */
  lemma CommandLineReadsBack(specs: seq<Spec>, members: seq<(string, Value)>)
    requires !Clash(specs) && Encoded(specs, Object(members)).Ok?
    ensures ReadsBack(specs, members)
  {
    WordsReadBack(specs, members);
    ReadsBackMeans(specs, members);
  }

  // ---------------------------------------------------------------------
  // A clash is always misread by some submission
  // ---------------------------------------------------------------------

  /** A value that the spec accepts and that adds words. */
  ghost function Working(s: Spec): (v: Value)
    requires CanWork(s)
    ensures Suits(s, v) && v != Bool(false)
  {
    match s.kind
    case Boolean => Bool(true)
    case Integer => Int(if s.min.Some? then s.min.value else if s.max.Some? then s.max.value else 0)
    case Str =>
      if s.allowedValues == [] then
        assert Utf8.Scalars("a")[1..] == [];
        Text("a")
      else
        var t :| t in s.allowedValues && TextOk(s, t);
        Text(t)
  }

  /** What the misread submission holds for the spec at `p`: spec `j` works, those from `i` on are silent. */
  ghost function Pick(s: Spec, i: int, j: int, p: int): (v: Option<Value>)
    requires p == j || s.required ==> CanWork(s)
    requires i <= p < j ==> Skippable(s)
    ensures (s.required ==> v.Some?) && (v.Some? ==> Suits(s, v.value))
  {
    if p == j then Some(Working(s))
    else if !s.required then None
    else if i <= p < j then Some(Bool(false))
    else Some(Working(s))
  }

  /** The schema accepts some submission: each required spec has a value that is accepted. */
  predicate Satisfiable(specs: seq<Spec>) {
    forall p :: 0 <= p < |specs| && specs[p].required ==> CanWork(specs[p])
  }

  ghost function Misread(specs: seq<Spec>, i: nat, j: nat, p: nat): seq<(string, Value)>
    requires Satisfiable(specs) && ClashAt(specs, i, j) && p <= |specs|
    decreases |specs| - p
  {
    if p == |specs| then []
    else
      var v := Pick(specs[p], i, j, p);
      (if v.Some? then [(specs[p].key, v.value)] else []) + Misread(specs, i, j, p + 1)
  }

  lemma {:induction false} MisreadKeys(specs: seq<Spec>, i: nat, j: nat, p: nat, key: string)
    requires Satisfiable(specs) && ClashAt(specs, i, j) && p <= |specs|
    requires Get(Misread(specs, i, j, p), key).Some?
    ensures exists q :: p <= q < |specs| && specs[q].key == key
    decreases |specs| - p
  {
    var v := Pick(specs[p], i, j, p);
    var rest := Misread(specs, i, j, p + 1);
    assert ([(specs[p].key, if v.Some? then v.value else Bool(false))] + rest)[1..] == rest;
    assert [] + rest == rest;
    if v.None? || specs[p].key != key {
      MisreadKeys(specs, i, j, p + 1, key);
    } else {
      assert specs[p].key == key;
    }
  }

  lemma {:induction false} MisreadHolds(specs: seq<Spec>, i: nat, j: nat, p: nat, q: nat)
    requires SpecsOk(specs) && Satisfiable(specs) && ClashAt(specs, i, j) && p <= q < |specs|
    ensures Get(Misread(specs, i, j, p), specs[q].key) == Pick(specs[q], i, j, q)
    decreases q - p
  {
    var v := Pick(specs[p], i, j, p);
    var rest := Misread(specs, i, j, p + 1);
    assert ([(specs[p].key, if v.Some? then v.value else Bool(false))] + rest)[1..] == rest;
    assert [] + rest == rest;
    if p < q {
      MisreadHolds(specs, i, j, p + 1, q);
    } else if Get(rest, specs[q].key).Some? {
      MisreadKeys(specs, i, j, p + 1, specs[q].key);
    }
  }

  lemma {:induction false} DecodedKeys(specs: seq<Spec>, argv: seq<string>, key: string)
    requires Decoded(specs, argv).Some? && key in Decoded(specs, argv).value
    ensures exists p :: 0 <= p < |specs| && specs[p].key == key
    decreases |specs|
  {
    var s := specs[0];
    if s.key == key {
      assert specs[0].key == key;
    } else {
      var rest := if argv == [] || argv[0] != s.flag then argv
                  else if s.kind.Boolean? then argv[1..]
                  else argv[2..];
      DecodedKeys(specs[1..], rest, key);
      var p :| 0 <= p < |specs[1..]| && specs[1..][p].key == key;
      assert specs[p + 1].key == key;
    }
  }

  predicate Good(specs: seq<Spec>, members: seq<(string, Value)>) {
    && AllWords(specs, members).Ok?
    && Decoded(specs, AllWords(specs, members).value) == Some(Submitted(specs, members))
  }

  /** A silent first spec is not the one of the next word. */
  lemma GoodAfterSilence(specs: seq<Spec>, members: seq<(string, Value)>)
    requires specs != [] && Good(specs, members) && specs[0].key !in Submitted(specs[1..], members)
    requires SpecWords(specs[0], Get(members, specs[0].key)) == Ok([])
    ensures Good(specs[1..], members)
    ensures var rest := AllWords(specs[1..], members).value;
            rest == [] || rest[0] != specs[0].flag
  {
    var rest := AllWords(specs[1..], members).value;
    NoWordsMeansSkippable(specs[0], Get(members, specs[0].key));
    assert [] + rest == rest;
    assert Submitted(specs, members) == Submitted(specs[1..], members);
  }

  lemma GoodAfterWords(specs: seq<Spec>, members: seq<(string, Value)>)
    requires specs != [] && Good(specs, members) && !Allowlisted(specs[1..], specs[0].key)
    requires SpecWords(specs[0], Get(members, specs[0].key)) != Ok([])
    ensures Good(specs[1..], members)
  {
    var key, v := specs[0].key, Get(members, specs[0].key);
    var below := Submitted(specs[1..], members);
    SubmittedIs(specs[1..], members, key);
    HeadReadsBack(specs, members);
    var d := Decoded(specs[1..], AllWords(specs[1..], members).value);
    if key in d.value {
      DecodedKeys(specs[1..], AllWords(specs[1..], members).value, key);
      assert false;
    }
    assert d.value == d.value[key := v.value] - {key} == below[key := v.value] - {key} == below;
  }

  /** What reads back reads back without the first spec; a silent first spec is not the next word's. */
  lemma GoodTail(specs: seq<Spec>, members: seq<(string, Value)>)
    requires SpecsOk(specs) && specs != [] && Good(specs, members)
    ensures Good(specs[1..], members)
    ensures SpecWords(specs[0], Get(members, specs[0].key)) == Ok([]) ==>
              var rest := AllWords(specs[1..], members).value;
              rest == [] || rest[0] != specs[0].flag
  {
    assert forall p :: 0 <= p < |specs[1..]| ==> specs[1..][p] == specs[p + 1];
    SubmittedIs(specs[1..], members, specs[0].key);
    if SpecWords(specs[0], Get(members, specs[0].key)) == Ok([]) {
      GoodAfterSilence(specs, members);
    } else {
      GoodAfterWords(specs, members);
    }
  }

  lemma {:induction false} GoodSuffix(specs: seq<Spec>, members: seq<(string, Value)>, i: nat)
    requires SpecsOk(specs) && i <= |specs| && Good(specs, members)
    ensures Good(specs[i..], members)
    decreases i
  {
    if i == 0 {
      assert specs[0..] == specs;
    } else {
      GoodSuffix(specs, members, i - 1);
      assert specs[i - 1..][1..] == specs[i..];
      GoodTail(specs[i - 1..], members);
    }
  }

  /** Silent specs add nothing, so the words of the specs from `i` on start with the flag of spec `j`. */
  lemma {:induction false} WordsStartAt(specs: seq<Spec>, members: seq<(string, Value)>, i: nat, j: nat)
    requires i <= j < |specs| && AllWords(specs[i..], members).Ok?
    requires forall p :: i <= p < j ==> SpecWords(specs[p], Get(members, specs[p].key)) == Ok([])
    requires SpecWords(specs[j], Get(members, specs[j].key)) != Ok([])
    ensures AllWords(specs[i..], members).value != []
    ensures AllWords(specs[i..], members).value[0] == specs[j].flag
    decreases j - i
  {
    assert specs[i..][0] == specs[i];
    if i < j {
      assert specs[i..][1..] == specs[i + 1..];
      WordsStartAt(specs, members, i + 1, j);
      assert SpecWords(specs[i], Get(members, specs[i].key)).value == [];
    }
  }

  /** A clash in a schema that accepts something: this submission is accepted and misread. */
  lemma ClashMisreads(specs: seq<Spec>, i: nat, j: nat)
    requires SpecsOk(specs) && Satisfiable(specs) && ClashAt(specs, i, j)
    ensures Encoded(specs, Object(Misread(specs, i, j, 0))).Ok?
    ensures !ReadsBack(specs, Misread(specs, i, j, 0))
  {
    var members := Misread(specs, i, j, 0);
    forall p | 0 <= p < |specs|
      ensures Get(members, specs[p].key) == Pick(specs[p], i, j, p) && Accepts(specs[p], members)
    {
      MisreadHolds(specs, i, j, 0, p);
    }
    forall k | 0 <= k < |members| ensures Allowlisted(specs, members[k].0) {
      GetIsMember(members, members[k].0);
      MisreadKeys(specs, i, j, 0, members[k].0);
    }
    EncodingSucceedsIff(specs, members);
    NoStrangerIff(specs, members);
    ReadsBackMeans(specs, members);
    if Good(specs, members) {
      GoodSuffix(specs, members, i);
      assert forall p :: i <= p < j ==> SpecWords(specs[p], Get(members, specs[p].key)) == Ok([]);
      ClashIsNotGood(specs, members, i, j);
    }
  }

  lemma ClashIsNotGood(specs: seq<Spec>, members: seq<(string, Value)>, i: nat, j: nat)
    requires SpecsOk(specs) && ClashAt(specs, i, j)
    requires forall p :: i <= p < j ==> SpecWords(specs[p], Get(members, specs[p].key)) == Ok([])
    requires SpecWords(specs[j], Get(members, specs[j].key)) != Ok([])
    ensures !Good(specs[i..], members)
  {
    assert SpecWords(specs[i], Get(members, specs[i].key)) == Ok([]);
    assert specs[i..][0] == specs[i] && specs[i..][1..] == specs[i + 1..];
    if Good(specs[i..], members) {
      GoodTail(specs[i..], members);
      WordsStartAt(specs, members, i + 1, j);
      assert false;
    }
  }

  /**
   A schema reads back every accepted submission exactly when it has no clash of
   flags, unless a required argument has no accepted value at all.
   */
  lemma ReadsBackIff(specs: seq<Spec>)
    requires SpecsOk(specs)
    ensures (forall members :: Encoded(specs, Object(members)).Ok? ==> ReadsBack(specs, members))
       <==> !Clash(specs) || !Satisfiable(specs)
  {
    if !Clash(specs) {
      forall members | Encoded(specs, Object(members)).Ok? ensures ReadsBack(specs, members) {
        CommandLineReadsBack(specs, members);
      }
    } else if !Satisfiable(specs) {
      forall members ensures Encoded(specs, Object(members)).Err? {
        UnsatisfiableRefusesAll(specs, members);
      }
    } else {
      var i, j :| 0 <= i < j < |specs| && ClashAt(specs, i, j);
      ClashMisreads(specs, i, j);
    }
  }

  lemma UnsatisfiableRefusesAll(specs: seq<Spec>, members: seq<(string, Value)>)
    requires !Satisfiable(specs)
    ensures Encoded(specs, Object(members)).Err?
  {
    var p :| 0 <= p < |specs| && specs[p].required && !CanWork(specs[p]);
    EncodingSucceedsIff(specs, members);
    if Accepts(specs[p], members) {
      WordsMeanCanWork(specs[p], Get(members, specs[p].key));
    }
  }

  lemma OneSpec(s: Spec, members: seq<(string, Value)>)
    ensures AllWords([s], members) == SpecWords(s, Get(members, s.key))
  {
    var first := SpecWords(s, Get(members, s.key));
    assert [s][1..] == [];
    assert first.Ok? ==> first.value + [] == first.value;
  }

  lemma TwoSpecs(a: Spec, b: Spec, members: seq<(string, Value)>)
    ensures AllWords([a, b], members)
         == var first, second := SpecWords(a, Get(members, a.key)), SpecWords(b, Get(members, b.key));
            if first.Err? then first else if second.Err? then second else Ok(first.value + second.value)
  {
    OneSpec(b, members);
    assert [a, b][1..] == [b];
  }

  /** Two optional switches with one flag: an accepted schema, and no telling which was asked for. */
  lemma SharedFlagHidesTheKey(a: Spec, b: Spec)
    requires SpecOk(a) && SpecOk(b) && a.kind.Boolean? && b.kind.Boolean?
    requires !a.required && !b.required && a.flag == b.flag && a.key != b.key
    ensures SpecsOk([a, b]) && ClashAt([a, b], 0, 1)
    ensures Encoded([a, b], Object([(a.key, Bool(true))])) == Ok([a.flag])
    ensures Encoded([a, b], Object([(b.key, Bool(true))])) == Ok([a.flag])
  {
    var specs := [a, b];
    assert specs[0].key == a.key && specs[1].key == b.key;
    var x, y := [(a.key, Bool(true))], [(b.key, Bool(true))];
    assert x[1..] == [] && y[1..] == [];
    TwoSpecs(a, b, x);
    TwoSpecs(a, b, y);
    assert Get(x, b.key) == None && Get(y, a.key) == None;
    assert Get(x, a.key) == Some(Bool(true)) && Get(y, b.key) == Some(Bool(true));
    assert [a.flag] + [] == [a.flag] && [] + [b.flag] == [b.flag];
    assert AllWords(specs, x) == Ok([a.flag]);
    assert AllWords(specs, y) == Ok([a.flag]);
    assert Allowlisted(specs, a.key) && Allowlisted(specs, b.key);
    NoStrangerIff(specs, x);
    NoStrangerIff(specs, y);
  }
}
