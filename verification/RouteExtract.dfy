/**
 The route extractor of the route-surface gate: reading `.route(path, methods)`
 calls off a router's builder chain, and comparing the operations with the
 declared surface.
 */
module RouteExtract {
  import opened Prelude
  import opened Texts
  import opened RouteScanner

  // ---------------------------------------------------------------------
  // Characters and words
  // ---------------------------------------------------------------------

  predicate IsSpace(c: char) {
    c == ' ' || c == '\t' || c == '\n' || c == '\r' || c == '\U{000B}' || c == '\U{000C}'
  }

  predicate IsWord(c: char) {
    'a' <= c <= 'z' || 'A' <= c <= 'Z' || '0' <= c <= '9' || c == '_'
  }

  predicate AllWord(s: string) { forall k :: 0 <= k < |s| ==> IsWord(s[k]) }

  predicate AllSpace(s: string) { forall k :: 0 <= k < |s| ==> IsSpace(s[k]) }

  /** No quotes and no parentheses. */
  predicate Plain(s: string) { forall k :: 0 <= k < |s| ==> s[k] != '"' && s[k] != '(' && s[k] != ')' }

  datatype Method = Get | Post | Put | Delete | Patch

  const METHODS := [Get, Post, Put, Delete, Patch]

  function Spelling(m: Method): string {
    match m
    case Get => "get"
    case Post => "post"
    case Put => "put"
    case Delete => "delete"
    case Patch => "patch"
  }

  const ROUTE: string := ".route("

  // ---------------------------------------------------------------------
  // What a builder chain is
  // ---------------------------------------------------------------------

  /** The name of a called function. */
  datatype Name = Http(m: Method) | Other(word: string)

  /** A method-router expression: calls, possibly nested, and string literals, in other text. */
  datatype Expr =
    | Done(text: string)
    | Lit(pre: string, text: string, next: Expr)
    | Call(pre: string, name: Name, gap: string, args: Expr, next: Expr)

  datatype Route = Route(lead: string, path: string, gap: string, expr: Expr)

  /** Routes, each after some other text, and the text after the last. */
  datatype Chain = End(tail: string) | Link(filler: string, route: Route, rest: Chain)

  function Word(n: Name): string { if n.Http? then Spelling(n.m) else n.word }

  function RenderExpr(e: Expr): string {
    match e
    case Done(text) => text
    case Lit(pre, text, next) => pre + ['"'] + text + ['"'] + RenderExpr(next)
    case Call(pre, name, gap, args, next) =>
      pre + Word(name) + gap + ['('] + RenderExpr(args) + [')'] + RenderExpr(next)
  }

  function RenderArgs(r: Route): string { r.lead + ['"'] + r.path + ['"'] + r.gap + [','] + RenderExpr(r.expr) }

  function RenderChain(c: Chain): string {
    match c
    case End(tail) => tail
    case Link(filler, route, rest) => filler + ROUTE + RenderArgs(route) + [')'] + RenderChain(rest)
  }

  /** A name that is not a method is a word that spells none; it may be empty, as in a tuple. */
  predicate NameOk(n: Name) {
    n.Http? || (AllWord(n.word) && forall m :: Spelling(m) != n.word)
  }

  /** Blanks at its end apart, the text does not end in a word. */
  predicate EndsNoWord(s: string) {
    forall k :: 0 <= k < |s| && IsWord(s[k]) ==> exists l :: k < l < |s| && !IsSpace(s[l])
  }

  /** The called name is the whole word before the parenthesis; without a name no word goes before it. */
  predicate CallOk(pre: string, name: Name, gap: string) {
    && Plain(pre) && NameOk(name) && AllSpace(gap)
    && (pre != [] ==> !IsWord(Last(pre)))
    && (name == Other([]) ==> gap == [] && EndsNoWord(pre))
  }

  predicate ExprOk(e: Expr) {
    match e
    case Done(text) => Plain(text)
    case Lit(pre, text, next) => Plain(pre) && StringText(text) && ExprOk(next)
    case Call(pre, name, gap, args, next) => CallOk(pre, name, gap) && ExprOk(args) && ExprOk(next)
  }

  function VerbOf(n: Name): seq<Method> { if n.Http? then [n.m] else [] }

  /**
   The HTTP methods of an expression, in the order they are written: those called,
   and those that a string literal happens to spell as a call.
   */
  function Verbs(e: Expr): seq<Method> {
    match e
    case Done(_) => []
    case Lit(_, text, next) => FindVerbs(text, 0) + Verbs(next)
    case Call(_, name, _, args, next) => VerbOf(name) + Verbs(args) + Verbs(next)
  }

  /** The HTTP methods called in an expression, whatever its literals say. */
  function Called(e: Expr): seq<Method> {
    match e
    case Done(_) => []
    case Lit(_, _, next) => Called(next)
    case Call(_, name, _, args, next) => VerbOf(name) + Called(args) + Called(next)
  }

  /** No literal of the expression spells a method call. */
  predicate Silent(e: Expr) {
    match e
    case Done(_) => true
    case Lit(_, text, next) => FindVerbs(text, 0) == [] && Silent(next)
    case Call(_, _, _, args, next) => Silent(args) && Silent(next)
  }

  predicate RouteOk(r: Route) {
    && AllSpace(r.lead) && AllSpace(r.gap) && ExprOk(r.expr) && Verbs(r.expr) != []
    && r.path != [] && forall k :: 0 <= k < |r.path| ==> r.path[k] != '"' && r.path[k] != '\\'
  }

  /** Nowhere in the text does a route call start. */
  predicate NoRoute(s: string) { forall k :: 0 <= k < |s| ==> !At(s, k, ROUTE) }

  predicate ChainOk(c: Chain) {
    match c
    case End(tail) => NoRoute(tail)
    case Link(filler, route, rest) => NoRoute(filler) && RouteOk(route) && ChainOk(rest)
  }

  function Listed(c: Chain): seq<(string, seq<Method>)> {
    match c
    case End(_) => []
    case Link(_, route, rest) => [(route.path, Verbs(route.expr))] + Listed(rest)
  }

  // ---------------------------------------------------------------------
  // The extractor
  // ---------------------------------------------------------------------

  datatype Failure = UnbalancedCall | NoComma | PathNotLiteral | NoMethod

  datatype Result<+T> = Ok(value: T) | Failed(why: Failure)

  /** The place after the parenthesis that closes the outermost of `depth` open ones. */
  function CallEnd(t: string, i: nat, depth: nat): (r: Option<nat>)
    requires i <= |t| && depth >= 1
    ensures r.Some? ==> i < r.value <= |t|
    decreases |t| - i
  {
    if i == |t| then None
    else if t[i] == '"' then
      var q := StringEnd(t, i + 1);
      if q.None? then None else CallEnd(t, q.value, depth)
    else if t[i] == '(' then CallEnd(t, i + 1, depth + 1)
    else if t[i] == ')' then if depth == 1 then Some(i + 1) else CallEnd(t, i + 1, depth - 1)
    else CallEnd(t, i + 1, depth)
  }

  /** The first comma outside parentheses and literals. */
  function TopComma(t: string, i: nat, nested: int): (r: Option<nat>)
    requires i <= |t|
    ensures r.Some? ==> i <= r.value < |t|
    decreases |t| - i
  {
    if i == |t| then None
    else if t[i] == '"' then
      var q := StringEnd(t, i + 1);
      if q.None? then None else TopComma(t, q.value, nested)
    else if t[i] == '(' then TopComma(t, i + 1, nested + 1)
    else if t[i] == ')' then TopComma(t, i + 1, nested - 1)
    else if t[i] == ',' && nested == 0 then Some(i)
    else TopComma(t, i + 1, nested)
  }

  function Strip(s: string): string {
    if s != [] && IsSpace(s[0]) then Strip(s[1..])
    else if s != [] && IsSpace(Last(s)) then Strip(Init(s))
    else s
  }

  /** The text of a literal without escapes, spaces around it allowed. */
  function PathLiteral(s: string): Option<string> {
    var t := Strip(s);
    if |t| >= 3 && t[0] == '"' && Last(t) == '"' && '"' !in t[1..|t| - 1] && '\\' !in t[1..|t| - 1]
    then Some(t[1..|t| - 1]) else None
  }

  function SkipSpace(t: string, i: nat): (j: nat)
    requires i <= |t|
    ensures i <= j <= |t| && (j < |t| ==> !IsSpace(t[j]))
    ensures forall k :: i <= k < j ==> IsSpace(t[k])
    decreases |t| - i
  {
    if i < |t| && IsSpace(t[i]) then SkipSpace(t, i + 1) else i
  }

  /** The first of the methods, tried in order from the k-th on, that is written at `i`. */
  function MethodAt(t: string, i: nat, k: nat): (r: Option<Method>)
    requires k <= |METHODS|
    ensures r.Some? ==> At(t, i, Spelling(r.value))
    decreases |t|, |METHODS| - k
  {
    if k == |METHODS| then None
    else if At(t, i, Spelling(METHODS[k])) then Some(METHODS[k])
    else MethodAt(t, i, k + 1)
  }

  /** A method call at a word boundary: the method, and the place after its parenthesis. */
  function VerbAt(t: string, i: nat): (r: Option<(Method, nat)>)
    requires i < |t|
    ensures r.Some? ==> i < r.value.1 <= |t|
  {
    if 0 < i && IsWord(t[i - 1]) then None
    else
      var m := MethodAt(t, i, 0);
      if m.None? then None
      else
        var j := SkipSpace(t, i + |Spelling(m.value)|);
        if j < |t| && t[j] == '(' then Some((m.value, j + 1)) else None
  }

  /** All method calls from `i` on, wherever they stand. */
  function FindVerbs(t: string, i: nat): seq<Method>
    requires i <= |t|
    decreases |t| - i
  {
    if i == |t| then []
    else
      var v := VerbAt(t, i);
      if v.None? then FindVerbs(t, i + 1) else [v.value.0] + FindVerbs(t, v.value.1)
  }

  function ParseRoute(args: string): Result<(string, seq<Method>)> {
    var comma := TopComma(args, 0, 0);
    if comma.None? then Failed(NoComma)
    else
      var path := PathLiteral(args[..comma.value]);
      var verbs := FindVerbs(args[comma.value + 1..], 0);
      if path.None? then Failed(PathNotLiteral)
      else if verbs == [] then Failed(NoMethod)
      else Ok((path.value, verbs))
  }

  /** The first place, from `i` on, where a route call starts. */
  function FindRoute(t: string, i: nat): (r: Option<nat>)
    requires i <= |t|
    ensures r.Some? ==> i <= r.value && At(t, r.value, ".route(")
    ensures forall k :: i <= k < (if r.Some? then r.value else |t|) ==> !At(t, k, ".route(")
    decreases |t| - i
  {
    if At(t, i, ROUTE) then Some(i) else if i == |t| then None else FindRoute(t, i + 1)
  }

  function Prepend<T>(out: seq<T>, r: Result<seq<T>>): Result<seq<T>> {
    if r.Ok? then Ok(out + r.value) else r
  }

  /** The arguments of the first route call from `i` on, if there is one, and the place after it. */
  function NextCall(body: string, i: nat): (r: Result<Option<(string, nat)>>)
    requires i <= |body|
    ensures r.Ok? && r.value.Some? ==> i < r.value.value.1 <= |body|
  {
    var start := FindRoute(body, i);
    if start.None? then Ok(None)
    else
      var end := CallEnd(body, start.value + |ROUTE|, 1);
      if end.None? then Failed(UnbalancedCall)
      else Ok(Some((body[start.value + |ROUTE|..end.value - 1], end.value)))
  }

  function Extract(body: string, i: nat): Result<seq<(string, seq<Method>)>>
    requires i <= |body|
    decreases |body| - i
  {
    var call := NextCall(body, i);
    if call.Failed? then Failed(call.why)
    else if call.value.None? then Ok([])
    else
      var route := ParseRoute(call.value.value.0);
      if route.Failed? then Failed(route.why)
      else Prepend([route.value], Extract(body, call.value.value.1))
  }

  // ---------------------------------------------------------------------
  // The loops of the gate
  // ---------------------------------------------------------------------

  /** What a literal-aware loop still has to find when it stands at `i` with these flags. */
  function LiteralEnd(t: string, i: nat, escaped: bool): (r: Option<nat>)
    requires i <= |t|
    ensures r.Some? ==> r.value <= |t|
  {
    if !escaped then StringEnd(t, i) else if i == |t| then None else StringEnd(t, i + 1)
  }

  function CallPending(t: string, i: nat, depth: nat, inString: bool, escaped: bool): Option<nat>
    requires i <= |t|
  {
    if depth == 0 then Some(i)
    else if !inString then CallEnd(t, i, depth)
    else
      var q := LiteralEnd(t, i, escaped);
      if q.None? then None else CallEnd(t, q.value, depth)
  }

  /** The loop that finds the end of a call. */
  method ScanCall(body: string, from: nat) returns (pos: nat, balanced: bool)
    requires from <= |body|
    ensures pos <= |body|
    ensures CallEnd(body, from, 1) == if balanced then Some(pos) else None
  {
    pos := from;
    var depth := 1;
    var inString, escaped := false, false;
    while pos < |body| && depth > 0
      invariant pos <= |body| && depth >= 0
      invariant escaped ==> inString
      invariant inString ==> depth > 0
      invariant CallEnd(body, from, 1) == CallPending(body, pos, depth, inString, escaped)
      decreases |body| - pos
    {
      var c := body[pos];
      if inString {
        if escaped {
          escaped := false;
        } else if c == '\\' {
          escaped := true;
        } else if c == '"' {
          inString := false;
        }
      } else if c == '"' {
        inString := true;
      } else if c == '(' {
        depth := depth + 1;
      } else if c == ')' {
        depth := depth - 1;
      }
      pos := pos + 1;
    }
    balanced := depth == 0;
  }

  function CommaPending(t: string, i: nat, nested: int, quote: bool, escaped: bool): Option<nat>
    requires i <= |t|
  {
    if !quote then TopComma(t, i, nested)
    else
      var q := LiteralEnd(t, i, escaped);
      if q.None? then None else TopComma(t, q.value, nested)
  }

  /** The loop that separates the path from the method router. */
  method SplitArgs(args: string) returns (split: Option<nat>)
    ensures split == TopComma(args, 0, 0)
  {
    var nested := 0;
    var quote, escaped := false, false;
    for idx := 0 to |args|
      invariant escaped ==> quote
      invariant TopComma(args, 0, 0) == CommaPending(args, idx, nested, quote, escaped)
    {
      var c := args[idx];
      if quote {
        if escaped {
          escaped := false;
        } else if c == '\\' {
          escaped := true;
        } else if c == '"' {
          quote := false;
        }
      } else if c == '"' {
        quote := true;
      } else if c == '(' {
        nested := nested + 1;
      } else if c == ')' {
        nested := nested - 1;
      } else if c == ',' && nested == 0 {
        return Some(idx);
      }
    }
    split := None;
  }

  method ReadArgs(args: string) returns (r: Result<(string, seq<Method>)>)
    ensures r == ParseRoute(args)
  {
    var split := SplitArgs(args);
    if split.None? {
      return Failed(NoComma);
    }
    var path := PathLiteral(args[..split.value]);
    if path.None? {
      return Failed(PathNotLiteral);
    }
    var methods := FindVerbs(args[split.value + 1..], 0);
    if methods == [] {
      return Failed(NoMethod);
    }
    r := Ok((path.value, methods));
  }

  lemma PrependOne<T>(out: seq<T>, x: T, r: Result<seq<T>>)
    ensures Prepend([], r) == r
    ensures Prepend(out, Prepend([x], r)) == Prepend(out + [x], r)
  {
    if r.Ok? {
      assert [] + r.value == r.value;
      assert out + ([x] + r.value) == out + [x] + r.value;
    }
  }

  method ReadNext(body: string, i: nat) returns (r: Result<Option<(string, nat)>>)
    requires i <= |body|
    ensures r == NextCall(body, i)
  {
    var start := FindRoute(body, i);
    if start.None? {
      return Ok(None);
    }
    var pos, balanced := ScanCall(body, start.value + |ROUTE|);
    if !balanced {
      return Failed(UnbalancedCall);
    }
    r := Ok(Some((body[start.value + |ROUTE|..pos - 1], pos)));
  }

  method ExtractRouteCalls(body: string) returns (r: Result<seq<(string, seq<Method>)>>)
    ensures r == Extract(body, 0)
  {
    var out: seq<(string, seq<Method>)> := [];
    var i := 0;
    PrependOne([], ("", []), Extract(body, 0));
    while true
      invariant i <= |body|
      invariant Extract(body, 0) == Prepend(out, Extract(body, i))
      decreases |body| - i
    {
      var call := ReadNext(body, i);
      if call.Failed? {
        return Failed(call.why);
      }
      if call.value.None? {
        assert out + [] == out;
        return Ok(out);
      }
      var (args, pos) := call.value.value;
      var route := ReadArgs(args);
      if route.Failed? {
        return Failed(route.why);
      }
      PrependOne(out, route.value, Extract(body, pos));
      out := out + [route.value];
      i := pos;
    }
  }

  // ---------------------------------------------------------------------
  // Calls, commas and paths are found where they were written
  // ---------------------------------------------------------------------

  lemma {:induction false} SkipPlain(t: string, i: nat, s: string, d: nat)
    requires d >= 1 && Plain(s) && At(t, i, s)
    ensures CallEnd(t, i, d) == CallEnd(t, i + |s|, d)
    decreases |s|
  {
    if s != [] {
      assert t[i + 0] == s[0];
      assert At(t, i + 1, s[1..]) by {
        assert s == [s[0]] + s[1..];
        AtSplit(t, i, [s[0]], s[1..]);
      }
      SkipPlain(t, i + 1, s[1..], d);
    }
  }

  lemma WordIsPlain(s: string)
    requires AllWord(s) || AllSpace(s)
    ensures Plain(s)
  {
  }

  /** A call as it stands in a text, part by part; `p` is the place of its parenthesis. */
  predicate CallAt(t: string, i: nat, pre: string, word: string, gap: string, p: nat) {
    && p == i + |pre| + |word| + |gap| && p < |t| && t[p] == '('
    && At(t, i, pre) && At(t, i + |pre|, word) && At(t, i + |pre| + |word|, gap)
  }

  lemma Regroup(pre: string, word: string, gap: string, args: string, next: string)
    ensures pre + word + gap + ['('] + args + [')'] + next == pre + (word + (gap + (['('] + (args + ([')'] + next)))))
  {
  }

  lemma AtHead(t: string, i: nat, pre: string, word: string, gap: string, rest: string)
    requires At(t, i, pre + (word + (gap + (['('] + rest))))
    ensures var p := i + |pre| + |word| + |gap|; CallAt(t, i, pre, word, gap, p) && At(t, p + 1, rest)
  {
    AtSplit(t, i, pre, word + (gap + (['('] + rest)));
    AtSplit(t, i + |pre|, word, gap + (['('] + rest));
    AtSplit(t, i + |pre| + |word|, gap, ['('] + rest);
    AtFirst(t, i + |pre| + |word| + |gap|, '(', rest);
  }

  lemma AtCall(t: string, i: nat, pre: string, name: Name, gap: string, args: Expr, next: Expr)
    requires At(t, i, RenderExpr(Call(pre, name, gap, args, next)))
    ensures var p := i + |pre| + |Word(name)| + |gap|; var q := p + 1 + |RenderExpr(args)|;
            && CallAt(t, i, pre, Word(name), gap, p) && At(t, p + 1, RenderExpr(args))
            && q < |t| && t[q] == ')' && At(t, q + 1, RenderExpr(next))
            && |RenderExpr(Call(pre, name, gap, args, next))| == q + 1 - i + |RenderExpr(next)|
  {
    hide At;
    var w, a, n := Word(name), RenderExpr(args), RenderExpr(next);
    var p := i + |pre| + |w| + |gap|;
    Regroup(pre, w, gap, a, n);
    AtHead(t, i, pre, w, gap, a + ([')'] + n));
    AtSplit(t, p + 1, a, [')'] + n);
    AtFirst(t, p + 1 + |a|, ')', n);
  }

  /** The text stands between quotes at `p` and `r`. */
  predicate InQuotes(t: string, p: nat, s: string, r: nat) {
    r == p + 1 + |s| && r < |t| && t[p] == '"' && At(t, p + 1, s) && t[r] == '"'
  }

  /** A literal as it stands in a text, with its quotes at `p` and `r`. */
  predicate LitAt(t: string, i: nat, pre: string, text: string, p: nat, r: nat) {
    p == i + |pre| && At(t, i, pre) && InQuotes(t, p, text, r)
  }

  lemma AtLit(t: string, i: nat, pre: string, text: string, next: Expr)
    requires At(t, i, RenderExpr(Lit(pre, text, next)))
    ensures var p := i + |pre|; var r := p + |text| + 1;
            && LitAt(t, i, pre, text, p, r) && At(t, p + 1, text + ['"']) && At(t, r + 1, RenderExpr(next))
            && |RenderExpr(Lit(pre, text, next))| == r + 1 - i + |RenderExpr(next)|
  {
    hide At;
    var n := RenderExpr(next);
    var p := i + |pre|;
    assert RenderExpr(Lit(pre, text, next)) == pre + (['"'] + ((text + ['"']) + n));
    AtSplit(t, i, pre, ['"'] + ((text + ['"']) + n));
    AtFirst(t, p, '"', (text + ['"']) + n);
    AtSplit(t, p + 1, text + ['"'], n);
    AtSplit(t, p + 1, text, ['"']);
    AtChar(t, p + 1 + |text|, '"');
  }

  lemma SpellingIsWord(m: Method)
    ensures |Spelling(m)| >= 3 && AllWord(Spelling(m))
  {
  }

  lemma NameIsWord(n: Name)
    requires NameOk(n)
    ensures AllWord(Word(n)) && (Word(n) == [] ==> n == Other([]))
  {
    if n.Http? {
      SpellingIsWord(n.m);
    }
  }

  lemma SkipName(t: string, i: nat, pre: string, word: string, gap: string, p: nat, d: nat)
    requires d >= 1 && Plain(pre) && AllWord(word) && AllSpace(gap) && CallAt(t, i, pre, word, gap, p)
    ensures CallEnd(t, i, d) == CallEnd(t, p + 1, d + 1)
  {
    WordIsPlain(word);
    WordIsPlain(gap);
    SkipPlain(t, i, pre, d);
    SkipPlain(t, i + |pre|, word, d);
    SkipPlain(t, i + |pre| + |word|, gap, d);
  }

  /** A literal is passed over by both scans. */
  lemma SkipLiteral(t: string, i: nat, s: string, d: nat)
    requires StringText(s)
    requires d >= 1 && i < |t| && t[i] == '"' && At(t, i + 1, s + ['"'])
    ensures CallEnd(t, i, d) == CallEnd(t, i + |s| + 2, d)
    ensures TopComma(t, i, 0) == TopComma(t, i + |s| + 2, 0)
  {
    SkipString(t, i + 1, s);
  }

  lemma SkipLit(t: string, i: nat, pre: string, text: string, p: nat, r: nat, d: nat)
    requires d >= 1 && Plain(pre) && StringText(text) && LitAt(t, i, pre, text, p, r) && At(t, p + 1, text + ['"'])
    ensures CallEnd(t, i, d) == CallEnd(t, r + 1, d)
  {
    SkipPlain(t, i, pre, d);
    SkipLiteral(t, p, text, d);
  }

  lemma {:induction false} SkipExpr(t: string, i: nat, e: Expr, d: nat, k: nat)
    requires d >= 1 && ExprOk(e) && At(t, i, RenderExpr(e)) && k == i + |RenderExpr(e)|
    ensures CallEnd(t, i, d) == CallEnd(t, k, d)
    decreases e, 2
  {
    match e
    case Done(text) => SkipPlain(t, i, text, d);
    case Lit(_, _, _) => SkipLitExpr(t, i, e, d, k);
    case Call(_, _, _, _, _) => SkipCallExpr(t, i, e, d, k);
  }

  lemma {:induction false} SkipLitExpr(t: string, i: nat, e: Expr, d: nat, k: nat)
    requires d >= 1 && e.Lit? && ExprOk(e) && At(t, i, RenderExpr(e)) && k == i + |RenderExpr(e)|
    ensures CallEnd(t, i, d) == CallEnd(t, k, d)
    decreases e, 1
  {
    AtLit(t, i, e.pre, e.text, e.next);
    var p := i + |e.pre|;
    var r := p + |e.text| + 1;
    SkipLit(t, i, e.pre, e.text, p, r, d);
    SkipExpr(t, r + 1, e.next, d, k);
  }

  lemma {:induction false} SkipCallExpr(t: string, i: nat, e: Expr, d: nat, k: nat)
    requires d >= 1 && e.Call? && ExprOk(e) && At(t, i, RenderExpr(e)) && k == i + |RenderExpr(e)|
    ensures CallEnd(t, i, d) == CallEnd(t, k, d)
    decreases e, 1
  {
    hide At, Spelling, CallEnd;
    AtCall(t, i, e.pre, e.name, e.gap, e.args, e.next);
    var p := i + |e.pre| + |Word(e.name)| + |e.gap|;
    NameIsWord(e.name);
    SkipName(t, i, e.pre, Word(e.name), e.gap, p, d);
    SkipInside(t, p, e, p + 1 + |RenderExpr(e.args)|, d, k);
  }

  lemma {:induction false} SkipInside(t: string, p: nat, e: Expr, q: nat, d: nat, k: nat)
    requires d >= 1 && e.Call? && ExprOk(e.args) && ExprOk(e.next)
    requires At(t, p + 1, RenderExpr(e.args)) && q == p + 1 + |RenderExpr(e.args)| && q < |t| && t[q] == ')'
    requires At(t, q + 1, RenderExpr(e.next)) && k == q + 1 + |RenderExpr(e.next)|
    ensures CallEnd(t, p + 1, d + 1) == CallEnd(t, k, d)
    decreases e, 0
  {
    SkipExpr(t, p + 1, e.args, d + 1, q);
    assert CallEnd(t, q, d + 1) == CallEnd(t, q + 1, d);
    SkipExpr(t, q + 1, e.next, d, k);
  }

  lemma {:induction false} PathIsText(s: string)
    requires forall k :: 0 <= k < |s| ==> s[k] != '"' && s[k] != '\\'
    ensures StringText(s)
    decreases |s|
  {
    if s != [] {
      PathIsText(s[1..]);
    }
  }

  lemma SkipPathLiteral(t: string, i: nat, s: string, d: nat)
    requires forall k :: 0 <= k < |s| ==> s[k] != '"' && s[k] != '\\'
    requires d >= 1 && i < |t| && t[i] == '"' && At(t, i + 1, s + ['"'])
    ensures CallEnd(t, i, d) == CallEnd(t, i + |s| + 2, d)
    ensures TopComma(t, i, 0) == TopComma(t, i + |s| + 2, 0)
  {
    PathIsText(s);
    SkipLiteral(t, i, s, d);
  }

  /** The arguments of a route as they stand in a text; `c` is the place of the comma. */
  lemma AtArgs(t: string, i: nat, r: Route)
    requires At(t, i, RenderArgs(r))
    ensures var q := i + |r.lead|; var c := q + |r.path| + 2 + |r.gap|;
            && At(t, i, r.lead) && q < |t| && t[q] == '"'
            && At(t, q + 1, r.path + ['"']) && At(t, q + |r.path| + 2, r.gap)
            && c < |t| && t[c] == ',' && At(t, c + 1, RenderExpr(r.expr))
            && |RenderArgs(r)| == c + 1 - i + |RenderExpr(r.expr)|
  {
    hide At;
    var e := RenderExpr(r.expr);
    var q := i + |r.lead|;
    assert RenderArgs(r) == r.lead + (['"'] + ((r.path + ['"']) + (r.gap + ([','] + e))));
    AtSplit(t, i, r.lead, ['"'] + ((r.path + ['"']) + (r.gap + ([','] + e))));
    AtFirst(t, q, '"', (r.path + ['"']) + (r.gap + ([','] + e)));
    AtSplit(t, q + 1, r.path + ['"'], r.gap + ([','] + e));
    AtSplit(t, q + 2 + |r.path|, r.gap, [','] + e);
    AtFirst(t, q + 2 + |r.path| + |r.gap|, ',', e);
  }

  lemma ClosesHere(t: string, e: nat)
    requires e < |t| && t[e] == ')'
    ensures CallEnd(t, e, 1) == Some(e + 1)
  {
  }

  lemma CallEndsAfterArgs(t: string, i: nat, r: Route)
    requires RouteOk(r) && At(t, i, RenderArgs(r) + [')'])
    ensures CallEnd(t, i, 1) == Some(i + |RenderArgs(r)| + 1)
  {
    hide *;
    AtSplit(t, i, RenderArgs(r), [')']);
    AtChar(t, i + |RenderArgs(r)|, ')');
    AtArgs(t, i, r);
    var c := i + |r.lead| + |r.path| + 2 + |r.gap|;
    var e := c + 1 + |RenderExpr(r.expr)|;
    ArgsAreSkipped(t, i, r, c, e);
    ClosesHere(t, e);
  }

  lemma ArgsAreSkipped(t: string, i: nat, r: Route, c: nat, e: nat)
    requires RouteOk(r) && c == i + |r.lead| + |r.path| + 2 + |r.gap| && e == c + 1 + |RenderExpr(r.expr)|
    requires var q := i + |r.lead|;
             && At(t, i, r.lead) && q < |t| && t[q] == '"'
             && At(t, q + 1, r.path + ['"']) && At(t, q + |r.path| + 2, r.gap)
    requires c < |t| && t[c] == ',' && e <= |t| && At(t, c + 1, RenderExpr(r.expr))
    ensures CallEnd(t, i, 1) == CallEnd(t, e, 1)
  {
    hide At, ExprOk, RenderExpr, Verbs;
    SkipPath(t, i, r.lead, r.path, r.gap);
    assert CallEnd(t, c, 1) == CallEnd(t, c + 1, 1);
    SkipExpr(t, c + 1, r.expr, 1, e);
  }

  lemma SkipPath(t: string, i: nat, lead: string, path: string, gap: string)
    requires AllSpace(lead) && AllSpace(gap) && forall k :: 0 <= k < |path| ==> path[k] != '"' && path[k] != '\\'
    requires var q := i + |lead|;
             At(t, i, lead) && q < |t| && t[q] == '"' && At(t, q + 1, path + ['"']) && At(t, q + |path| + 2, gap)
    ensures CallEnd(t, i, 1) == CallEnd(t, i + |lead| + |path| + 2 + |gap|, 1)
  {
    var q := i + |lead|;
    WordIsPlain(lead);
    WordIsPlain(gap);
    SkipPlain(t, i, lead, 1);
    SkipPathLiteral(t, q, path, 1);
    SkipPlain(t, q + |path| + 2, gap, 1);
  }

  lemma {:induction false} CommaAfterSpace(t: string, i: nat, s: string)
    requires AllSpace(s) && At(t, i, s)
    ensures TopComma(t, i, 0) == TopComma(t, i + |s|, 0)
    decreases |s|
  {
    if s != [] {
      assert t[i + 0] == s[0];
      assert At(t, i + 1, s[1..]) by {
        assert s == [s[0]] + s[1..];
        AtSplit(t, i, [s[0]], s[1..]);
      }
      CommaAfterSpace(t, i + 1, s[1..]);
    }
  }

  lemma CommaHere(t: string, c: nat)
    requires c < |t| && t[c] == ','
    ensures TopComma(t, c, 0) == Some(c)
  {
  }

  lemma CommaAfterPath(t: string, r: Route)
    requires RouteOk(r) && At(t, 0, RenderArgs(r))
    ensures TopComma(t, 0, 0) == Some(|r.lead| + |r.path| + 2 + |r.gap|)
  {
    hide At, ExprOk, RenderExpr, RenderArgs, Verbs, TopComma;
    AtArgs(t, 0, r);
    CommaAfterSpace(t, 0, r.lead);
    SkipPathLiteral(t, |r.lead|, r.path, 1);
    CommaAfterSpace(t, |r.lead| + |r.path| + 2, r.gap);
    CommaHere(t, |r.lead| + |r.path| + 2 + |r.gap|);
  }

  lemma {:induction false} StripSpaces(a: string, core: string, b: string)
    requires AllSpace(a) && AllSpace(b) && core != [] && !IsSpace(core[0]) && !IsSpace(Last(core))
    ensures Strip(a + core + b) == core
    decreases |a| + |b|
  {
    var s := a + core + b;
    if a != [] {
      assert s[1..] == a[1..] + core + b;
      StripSpaces(a[1..], core, b);
    } else if b != [] {
      assert s[0] == core[0];
      assert Init(s) == a + core + Init(b);
      StripSpaces(a, core, Init(b));
    } else {
      assert s == core;
    }
  }

  lemma PathIsRead(r: Route)
    requires RouteOk(r)
    ensures PathLiteral(RenderArgs(r)[..|r.lead| + |r.path| + 2 + |r.gap|]) == Some(r.path)
  {
    var core := ['"'] + r.path + ['"'];
    assert RenderArgs(r)[..|r.lead| + |r.path| + 2 + |r.gap|] == r.lead + core + r.gap;
    StripSpaces(r.lead, core, r.gap);
    assert core[1..|core| - 1] == r.path;
  }

  // ---------------------------------------------------------------------
  // Methods are found where they were written
  // ---------------------------------------------------------------------

  /** No method begins another, so the one written is the one found. */
  lemma MethodIsFound(t: string, i: nat, m: Method)
    requires At(t, i, Spelling(m))
    ensures MethodAt(t, i, 0) == Some(m)
  {
    assert t[i + 0] == Spelling(m)[0] && t[i + 1] == Spelling(m)[1];
    var k := match m case Get => 0 case Post => 1 case Put => 2 case Delete => 3 case Patch => 4;
    TriedInOrder(t, i, m, k, 0);
  }

  lemma {:induction false} TriedInOrder(t: string, i: nat, m: Method, n: nat, k: nat)
    requires k <= n < |METHODS| && METHODS[n] == m && At(t, i, Spelling(m))
    ensures MethodAt(t, i, k) == Some(m)
    decreases n - k
  {
    if k < n {
      assert METHODS[k] != m;
      if At(t, i, Spelling(METHODS[k])) {
        SameStart(t, i, m, METHODS[k]);
      }
      TriedInOrder(t, i, m, n, k + 1);
    }
  }

  lemma SameStart(t: string, i: nat, a: Method, b: Method)
    requires At(t, i, Spelling(a)) && At(t, i, Spelling(b))
    ensures a == b
  {
    assert t[i + 0] == Spelling(a)[0] && t[i + 1] == Spelling(a)[1];
    assert t[i + 0] == Spelling(b)[0] && t[i + 1] == Spelling(b)[1];
  }

  /** The characters of a method call found at `q`: the method, spaces, a parenthesis. */
  predicate Reaches(t: string, q: nat, m: Method, g: nat, j: nat) {
    && q < g <= j < |t| && t[j] == '(' && g == q + |Spelling(m)| && At(t, q, Spelling(m))
    && (forall k :: q <= k < g ==> IsWord(t[k]))
    && (forall k :: g <= k < j ==> IsSpace(t[k]))
  }

  lemma VerbReaches(t: string, q: nat)
    requires q < |t| && VerbAt(t, q).Some?
    ensures var (m, after) := VerbAt(t, q).value; after >= 1 && Reaches(t, q, m, q + |Spelling(m)|, after - 1)
    ensures q == 0 || !IsWord(t[q - 1])
  {
    var m := VerbAt(t, q).value.0;
    SpellingIsWord(m);
    forall k | q <= k < q + |Spelling(m)| ensures IsWord(t[k]) {
      assert t[q + (k - q)] == Spelling(m)[k - q];
    }
  }

  /** Where the text is not a word, or a word goes before, no method call starts. */
  lemma NoVerbHere(t: string, q: nat)
    requires q < |t| && (!IsWord(t[q]) || (q > 0 && IsWord(t[q - 1])))
    ensures VerbAt(t, q).None?
  {
    if VerbAt(t, q).Some? {
      VerbReaches(t, q);
    }
  }

  ghost predicate NoVerbFrom(t: string, a: nat, b: nat) {
    a <= b <= |t| && forall q :: a <= q < b ==> VerbAt(t, q).None?
  }

  lemma {:induction false} NoVerbs(t: string, a: nat, b: nat)
    requires NoVerbFrom(t, a, b)
    ensures FindVerbs(t, a) == FindVerbs(t, b)
    decreases b - a
  {
    if a < b {
      NoVerbs(t, a + 1, b);
    }
  }

  /** What may follow plain text. */
  predicate StopsAt(t: string, b: nat) { b < |t| ==> t[b] == ')' || t[b] == '"' }

  /** Text without parentheses, up to a closing one, a literal or the end, holds no method call. */
  lemma NoVerbInPlain(t: string, a: nat, b: nat, q: nat)
    requires a <= q < b <= |t| && (forall k :: a <= k < b ==> t[k] != '(') && StopsAt(t, b)
    ensures VerbAt(t, q).None?
  {
    hide Spelling, VerbAt;
    if VerbAt(t, q).Some? {
      VerbReaches(t, q);
    }
  }

  /** The parts of a call, character by character: its name stands from `n` to `g`. */
  predicate CallChars(t: string, i: nat, n: nat, g: nat, p: nat) {
    && i <= n <= g <= p < |t| && t[p] == '('
    && (forall k :: i <= k < n ==> t[k] != '(')
    && (forall k :: n <= k < g ==> IsWord(t[k])) && (forall k :: g <= k < p ==> IsSpace(t[k]))
    && (i < n ==> !IsWord(t[n - 1])) && (i == n && 0 < i ==> !IsWord(t[i - 1]))
    && (n == g ==> g == p && forall k :: i <= k < n && IsWord(t[k]) ==> exists l :: k < l < n && !IsSpace(t[l]))
  }

  lemma CharsOfCall(t: string, i: nat, pre: string, name: Name, gap: string, p: nat)
    requires CallAt(t, i, pre, Word(name), gap, p) && CallOk(pre, name, gap) && (i == 0 || !IsWord(t[i - 1]))
    ensures CallChars(t, i, i + |pre|, i + |pre| + |Word(name)|, p)
  {
    NameIsWord(name);
    var n := i + |pre|;
    var g := n + |Word(name)|;
    forall k | i <= k < n ensures t[k] == pre[k - i] { assert t[i + (k - i)] == pre[k - i]; }
    forall k | n <= k < g ensures IsWord(t[k]) { assert t[n + (k - n)] == Word(name)[k - n]; }
    forall k | g <= k < p ensures IsSpace(t[k]) { assert t[g + (k - g)] == gap[k - g]; }
  }

  /** A method call that starts in a call ends at the call's parenthesis. */
  lemma SameParenthesis(t: string, i: nat, n: nat, g: nat, p: nat, q: nat, m: Method, h: nat, j: nat)
    requires CallChars(t, i, n, g, p) && Reaches(t, q, m, h, j) && i <= q <= p
    ensures j == p
  {
    assert forall k :: q <= k < p ==> t[k] != '(';
    assert forall k :: q <= k < j ==> t[k] != '(';
  }

  /** Without a name in front of it, no method call ends there. */
  lemma NoNameNoVerb(t: string, i: nat, p: nat, q: nat, m: Method, h: nat)
    requires i <= q < |t| && Reaches(t, q, m, h, p)
    ensures exists k :: i <= k < p && IsWord(t[k]) && forall l :: k < l < p ==> IsSpace(t[l])
  {
    assert IsWord(t[h - 1]);
  }

  /** A method call that starts in a call, at a word boundary, is the call's own name. */
  lemma OnlyTheName(t: string, i: nat, n: nat, g: nat, p: nat, q: nat, m: Method, h: nat, j: nat)
    requires CallChars(t, i, n, g, p) && Reaches(t, q, m, h, j)
    requires i <= q <= p && (q == 0 || !IsWord(t[q - 1]))
    ensures n < g && q == n && h == g && j == p
  {
    SameParenthesis(t, i, n, g, p, q, m, h, j);
    if n == g {
      NoNameNoVerb(t, i, p, q, m, h);
      assert false;
    }
    assert IsWord(t[n]) && IsWord(t[q]) && IsWord(t[g - 1]) && IsWord(t[h - 1]);
    assert h < p ==> IsSpace(t[h]);
    assert g < p ==> IsSpace(t[g]);
    assert h == g;
  }

  lemma NoVerbBesideName(t: string, i: nat, n: nat, g: nat, p: nat, q: nat)
    requires CallChars(t, i, n, g, p) && i <= q <= p && q != n
    ensures VerbAt(t, q).None?
  {
    if VerbAt(t, q).Some? {
      VerbReaches(t, q);
      var m := VerbAt(t, q).value.0;
      OnlyTheName(t, i, n, g, p, q, m, q + |Spelling(m)|, VerbAt(t, q).value.1 - 1);
    }
  }

  lemma NameIsReached(t: string, i: nat, n: nat, g: nat, p: nat)
    requires CallChars(t, i, n, g, p)
    ensures FindVerbs(t, i) == FindVerbs(t, n)
  {
    forall q | i <= q < n ensures VerbAt(t, q).None? { NoVerbBesideName(t, i, n, g, p, q); }
    NoVerbs(t, i, n);
  }

  lemma MethodIsRead(t: string, i: nat, n: nat, g: nat, p: nat, m: Method)
    requires CallChars(t, i, n, g, p) && At(t, n, Spelling(m)) && g == n + |Spelling(m)|
    ensures FindVerbs(t, n) == [m] + FindVerbs(t, p + 1)
  {
    hide Spelling, At;
    assert n > 0 ==> !IsWord(t[n - 1]);
    MethodIsFound(t, n, m);
    assert SkipSpace(t, g) == p;
    assert VerbAt(t, n) == Some((m, p + 1));
  }

  lemma OtherNameIsPassed(t: string, i: nat, n: nat, g: nat, p: nat, word: string)
    requires CallChars(t, i, n, g, p) && At(t, n, word) && g == n + |word| && forall m :: Spelling(m) != word
    ensures FindVerbs(t, n) == FindVerbs(t, p + 1)
  {
    hide Spelling;
    assert n > 0 ==> !IsWord(t[n - 1]);
    if VerbAt(t, n).Some? {
      VerbReaches(t, n);
      var m := VerbAt(t, n).value.0;
      OnlyTheName(t, i, n, g, p, n, m, n + |Spelling(m)|, VerbAt(t, n).value.1 - 1);
      SameText(t, n, word, Spelling(m));
    }
    forall q | n <= q < p + 1 ensures VerbAt(t, q).None? {
      if q != n { NoVerbBesideName(t, i, n, g, p, q); }
    }
    NoVerbs(t, n, p + 1);
  }

  lemma SameText(t: string, i: nat, a: string, b: string)
    requires At(t, i, a) && At(t, i, b) && |a| == |b|
    ensures a == b
  {
    forall k | 0 <= k < |a| ensures a[k] == b[k] { assert t[i + k] == a[k] && t[i + k] == b[k]; }
  }

  /** Reading on from a call: its name if that is a method, then what is inside. */
  lemma VerbOfCall(t: string, i: nat, pre: string, name: Name, gap: string, p: nat)
    requires CallAt(t, i, pre, Word(name), gap, p) && CallOk(pre, name, gap) && (i == 0 || !IsWord(t[i - 1]))
    ensures FindVerbs(t, i) == VerbOf(name) + FindVerbs(t, p + 1)
  {
    hide At, Spelling, FindVerbs, VerbAt;
    var n := i + |pre|;
    var g := n + |Word(name)|;
    CharsOfCall(t, i, pre, name, gap, p);
    NameIsReached(t, i, n, g, p);
    if name.Http? {
      MethodIsRead(t, i, n, g, p, name.m);
    } else {
      OtherNameIsPassed(t, i, n, g, p, name.word);
    }
  }

  lemma RangeIsRead(t: string, a: nat, b: nat)
    requires a <= b <= |t| && (forall k :: a <= k < b ==> t[k] != '(') && StopsAt(t, b)
    ensures FindVerbs(t, a) == FindVerbs(t, b)
  {
    forall q | a <= q < b ensures VerbAt(t, q).None? { NoVerbInPlain(t, a, b, q); }
    NoVerbs(t, a, b);
  }

  lemma PlainIsRead(t: string, i: nat, text: string, b: nat)
    requires Plain(text) && At(t, i, text) && b == i + |text| && StopsAt(t, b)
    ensures FindVerbs(t, i) == FindVerbs(t, b)
  {
    forall k | i <= k < b ensures t[k] != '(' { assert t[i + (k - i)] == text[k - i]; }
    RangeIsRead(t, i, b);
  }

  lemma CloseIsPassed(t: string, q: nat)
    requires q < |t| && (t[q] == ')' || t[q] == '"')
    ensures FindVerbs(t, q) == FindVerbs(t, q + 1)
  {
    NoVerbHere(t, q);
  }

  /** The characters of a method call say which one it is and where it ends. */
  lemma ReachedIsVerb(t: string, q: nat, m: Method, g: nat, j: nat)
    requires Reaches(t, q, m, g, j) && (q == 0 || !IsWord(t[q - 1]))
    ensures VerbAt(t, q) == Some((m, j + 1))
  {
    MethodIsFound(t, q, m);
    assert SkipSpace(t, g) == j;
  }

  /** A method call of the literal's text is one of the whole. */
  lemma ReachesUp(t: string, a: nat, s: string, m: Method, q: nat, g: nat, j: nat, x: nat, h: nat, l: nat)
    requires a + |s| <= |t| && At(t, a, s) && x == a + q && h == a + g && l == a + j && Reaches(s, q, m, g, j)
    ensures Reaches(t, x, m, h, l)
  {
    assert forall k :: 0 <= k < |s| ==> s[k] == t[a + k];
    forall k | 0 <= k < |Spelling(m)| ensures t[x + k] == Spelling(m)[k] { assert s[q + k] == Spelling(m)[k]; }
    forall k | x <= k < h ensures IsWord(t[k]) { assert IsWord(s[k - a]); }
    forall k | h <= k < l ensures IsSpace(t[k]) { assert IsSpace(s[k - a]); }
  }

  /** A method call of the whole that lies in the literal is one of its text. */
  lemma ReachesDown(t: string, a: nat, s: string, m: Method, q: nat, g: nat, j: nat, x: nat, h: nat, l: nat)
    requires a + |s| <= |t| && At(t, a, s) && x == a + q && h == a + g && l == a + j && j < |s|
    requires Reaches(t, x, m, h, l)
    ensures Reaches(s, q, m, g, j)
  {
    assert s[j] == t[a + j];
    forall k | q <= k < g ensures IsWord(s[k]) { assert s[k] == t[a + k]; }
    forall k | g <= k < j ensures IsSpace(s[k]) { assert s[k] == t[a + k]; }
    assert At(s, q, Spelling(m)) by {
      forall k | 0 <= k < |Spelling(m)| ensures s[q + k] == Spelling(m)[k] {
        assert s[q + k] == t[a + (q + k)] && t[x + k] == Spelling(m)[k];
      }
    }
  }

  /** Word boundaries in the literal's text and in the whole are the same. */
  lemma SameBoundary(t: string, p: nat, s: string, r: nat, k: nat, x: nat)
    requires k < |s| && InQuotes(t, p, s, r) && x == p + 1 + k
    ensures k == 0 || !IsWord(s[k - 1]) <==> !IsWord(t[x - 1])
  {
    if k > 0 {
      assert s[k - 1] == t[p + 1 + (k - 1)];
    }
  }

  /** A method call that starts in the literal ends there: it cannot pass the quote. */
  lemma EndsInLiteral(t: string, x: nat, m: Method, g: nat, j: nat, e: nat)
    requires Reaches(t, x, m, g, j) && x < e < |t| && t[e] == '"'
    ensures j < e
  {
  }

  /** A method call seen inside a literal is one of the literal's own text. */
  lemma VerbOfLiteral(t: string, p: nat, s: string, r: nat, k: nat, x: nat)
    requires k < |s| && InQuotes(t, p, s, r) && x == p + 1 + k && VerbAt(t, x).Some?
    ensures VerbAt(s, k).Some?
  {
    hide Spelling;
    VerbReaches(t, x);
    SameBoundary(t, p, s, r, k, x);
    var (m, after) := VerbAt(t, x).value;
    var h, l := x + |Spelling(m)|, after - 1;
    EndsInLiteral(t, x, m, h, l, r);
    var g, j := k + |Spelling(m)|, after - 2 - p;
    ReachesDown(t, p + 1, s, m, k, g, j, x, h, l);
    ReachedIsVerb(s, k, m, g, j);
  }

  lemma VerbEnds(s: string, k: nat, m: Method, g: nat, y: nat)
    requires k < |s| && VerbAt(s, k) == Some((m, y)) && g == k + |Spelling(m)|
    ensures 1 <= y <= |s| && Reaches(s, k, m, g, y - 1) && (k == 0 || !IsWord(s[k - 1]))
  {
    VerbReaches(s, k);
  }

  lemma VerbInLiteral(t: string, p: nat, s: string, r: nat, k: nat, x: nat, m: Method, y: nat)
    requires k < |s| && InQuotes(t, p, s, r) && x == p + 1 + k && VerbAt(s, k) == Some((m, y))
    ensures VerbAt(t, x) == Some((m, p + 1 + y))
  {
    hide Spelling;
    var g := k + |Spelling(m)|;
    VerbEnds(s, k, m, g, y);
    SameBoundary(t, p, s, r, k, x);
    var h, l := x + |Spelling(m)|, p + y;
    ReachesUp(t, p + 1, s, m, k, g, y - 1, x, h, l);
    ReachedIsVerb(t, x, m, h, l);
  }

  lemma OneVerb(t: string, x: nat, m: Method, y: nat)
    requires x < |t| && VerbAt(t, x) == Some((m, y))
    ensures FindVerbs(t, x) == [m] + FindVerbs(t, y)
  {
  }

  /** Reading on from the same method call in the literal's text and in the whole. */
  lemma SameVerbRead(t: string, x: nat, z: nat, s: string, k: nat, y: nat, m: Method, rest: seq<Method>)
    requires k < |s| && VerbAt(s, k) == Some((m, y)) && x < |t| && VerbAt(t, x) == Some((m, z))
    requires FindVerbs(t, z) == FindVerbs(s, y) + rest
    ensures FindVerbs(t, x) == FindVerbs(s, k) + rest
  {
    OneVerb(t, x, m, z);
    OneVerb(s, k, m, y);
    ReadAfter(FindVerbs(t, x), FindVerbs(t, z), rest, [m], FindVerbs(s, y));
  }

  lemma SameSilenceRead(t: string, x: nat, s: string, k: nat, rest: seq<Method>)
    requires k < |s| && VerbAt(s, k).None? && x < |t| && VerbAt(t, x).None?
    requires FindVerbs(t, x + 1) == FindVerbs(s, k + 1) + rest
    ensures FindVerbs(t, x) == FindVerbs(s, k) + rest
  {
    hide VerbAt, Spelling;
  }

  lemma NothingLeft(s: string, rest: seq<Method>)
    ensures rest == FindVerbs(s, |s|) + rest
  {
  }

  /** From a method call of the literal, reading goes on at the place after it. */
  lemma LiteralVerbRead(t: string, p: nat, s: string, r: nat, k: nat, x: nat, y: nat, rest: seq<Method>)
    requires k < |s| && InQuotes(t, p, s, r) && x == p + 1 + k && VerbAt(s, k).Some? && y == VerbAt(s, k).value.1
    requires FindVerbs(t, p + 1 + y) == FindVerbs(s, y) + rest
    ensures FindVerbs(t, x) == FindVerbs(s, k) + rest
  {
    hide Spelling, InQuotes, FindVerbs;
    var m := VerbAt(s, k).value.0;
    VerbInLiteral(t, p, s, r, k, x, m, y);
    SameVerbRead(t, x, p + 1 + y, s, k, y, m, rest);
  }

  lemma LiteralSilenceRead(t: string, p: nat, s: string, r: nat, k: nat, x: nat, rest: seq<Method>)
    requires k < |s| && InQuotes(t, p, s, r) && x == p + 1 + k && VerbAt(s, k).None?
    requires FindVerbs(t, x + 1) == FindVerbs(s, k + 1) + rest
    ensures FindVerbs(t, x) == FindVerbs(s, k) + rest
  {
    hide Spelling, FindVerbs;
    if VerbAt(t, x).Some? {
      VerbOfLiteral(t, p, s, r, k, x);
    }
    SameSilenceRead(t, x, s, k, rest);
  }

  lemma QuotesFit(t: string, p: nat, s: string, r: nat)
    requires InQuotes(t, p, s, r)
    ensures r == p + 1 + |s| && r < |t|
  {
  }

  lemma {:induction false} TextIsRead(t: string, p: nat, s: string, r: nat, k: nat, x: nat)
    requires k <= |s| && InQuotes(t, p, s, r) && x == p + 1 + k
    ensures FindVerbs(t, x) == FindVerbs(s, k) + FindVerbs(t, r)
    decreases |s| - k
  {
    hide *;
    QuotesFit(t, p, s, r);
    if k == |s| {
      NothingLeft(s, FindVerbs(t, r));
    } else if VerbAt(s, k).Some? {
      var y := VerbAt(s, k).value.1;
      TextIsRead(t, p, s, r, y, p + 1 + y);
      LiteralVerbRead(t, p, s, r, k, x, y, FindVerbs(t, r));
    } else {
      TextIsRead(t, p, s, r, k + 1, x + 1);
      LiteralSilenceRead(t, p, s, r, k, x, FindVerbs(t, r));
    }
  }

  /** A literal is read as if its text were code. */
  lemma LitIsRead(t: string, i: nat, pre: string, text: string, p: nat, r: nat)
    requires Plain(pre) && LitAt(t, i, pre, text, p, r)
    ensures FindVerbs(t, i) == FindVerbs(text, 0) + FindVerbs(t, r + 1)
  {
    hide Spelling, FindVerbs, VerbAt, At;
    PlainIsRead(t, i, pre, p);
    CloseIsPassed(t, p);
    TextIsRead(t, p, text, r, 0, p + 1);
    CloseIsPassed(t, r);
  }

  lemma ReadInTurn<T>(all: seq<T>, inner: seq<T>, outer: seq<T>, end: seq<T>, a: seq<T>, b: seq<T>, c: seq<T>)
    requires all == a + inner && inner == b + outer && outer == c + end
    ensures all == a + b + c + end
  {
  }

  /** Reading an expression finds exactly its methods, in order. */
  lemma {:induction false} VerbsAreRead(t: string, i: nat, e: Expr, k: nat)
    requires ExprOk(e) && At(t, i, RenderExpr(e)) && (i == 0 || !IsWord(t[i - 1]))
    requires k == i + |RenderExpr(e)| && (k < |t| ==> t[k] == ')')
    ensures FindVerbs(t, i) == Verbs(e) + FindVerbs(t, k)
    decreases e, 2
  {
    match e
    case Done(text) => PlainIsRead(t, i, text, k);
    case Lit(_, _, _) => LitVerbs(t, i, e, k);
    case Call(_, _, _, _, _) => CallVerbs(t, i, e, k);
  }

  lemma {:induction false} LitVerbs(t: string, i: nat, e: Expr, k: nat)
    requires e.Lit? && ExprOk(e) && At(t, i, RenderExpr(e))
    requires k == i + |RenderExpr(e)| && (k < |t| ==> t[k] == ')')
    ensures FindVerbs(t, i) == Verbs(e) + FindVerbs(t, k)
    decreases e, 1
  {
    var p := i + |e.pre|;
    AtLit(t, i, e.pre, e.text, e.next);
    LitExprIsRead(t, i, e.pre, e.text, e.next, p, p + |e.text| + 1, k);
  }

  lemma {:induction false} CallVerbs(t: string, i: nat, e: Expr, k: nat)
    requires e.Call? && ExprOk(e) && At(t, i, RenderExpr(e)) && (i == 0 || !IsWord(t[i - 1]))
    requires k == i + |RenderExpr(e)| && (k < |t| ==> t[k] == ')')
    ensures FindVerbs(t, i) == Verbs(e) + FindVerbs(t, k)
    decreases e, 1
  {
    var p := i + |e.pre| + |Word(e.name)| + |e.gap|;
    AtCall(t, i, e.pre, e.name, e.gap, e.args, e.next);
    CallIsRead(t, i, e.pre, e.name, e.gap, e.args, e.next, p, p + 1 + |RenderExpr(e.args)|, k);
  }

  lemma {:induction false} RestIsRead(t: string, r: nat, next: Expr, k: nat)
    requires ExprOk(next) && r < |t| && (t[r] == '"' || t[r] == ')') && At(t, r + 1, RenderExpr(next))
    requires k == r + 1 + |RenderExpr(next)| && (k < |t| ==> t[k] == ')')
    ensures FindVerbs(t, r + 1) == Verbs(next) + FindVerbs(t, k)
    decreases next, 3
  {
    VerbsAreRead(t, r + 1, next, k);
  }

  lemma ReadAfter<T>(all: seq<T>, outer: seq<T>, end: seq<T>, a: seq<T>, b: seq<T>)
    requires all == a + outer && outer == b + end
    ensures all == a + b + end
  {
  }

  lemma {:induction false} LitExprIsRead(t: string, i: nat, pre: string, text: string, next: Expr,
                                         p: nat, r: nat, k: nat)
    requires Plain(pre) && ExprOk(next) && LitAt(t, i, pre, text, p, r) && At(t, r + 1, RenderExpr(next))
    requires k == r + 1 + |RenderExpr(next)| && (k < |t| ==> t[k] == ')')
    ensures FindVerbs(t, i) == FindVerbs(text, 0) + Verbs(next) + FindVerbs(t, k)
    decreases Lit(pre, text, next), 0
  {
    LitIsRead(t, i, pre, text, p, r);
    RestIsRead(t, r, next, k);
    ReadAfter(FindVerbs(t, i), FindVerbs(t, r + 1), FindVerbs(t, k), FindVerbs(text, 0), Verbs(next));
  }

  lemma {:induction false} CallIsRead(t: string, i: nat, pre: string, name: Name, gap: string, args: Expr, next: Expr,
                                      p: nat, q: nat, k: nat)
    requires CallOk(pre, name, gap) && ExprOk(args) && ExprOk(next)
    requires CallAt(t, i, pre, Word(name), gap, p) && (i == 0 || !IsWord(t[i - 1]))
    requires At(t, p + 1, RenderExpr(args)) && q == p + 1 + |RenderExpr(args)| && q < |t| && t[q] == ')'
    requires At(t, q + 1, RenderExpr(next)) && k == q + 1 + |RenderExpr(next)| && (k < |t| ==> t[k] == ')')
    ensures FindVerbs(t, i) == VerbOf(name) + Verbs(args) + Verbs(next) + FindVerbs(t, k)
    decreases Call(pre, name, gap, args, next), 0
  {
    RestIsRead(t, q, next, k);
    assert FindVerbs(t, q + 1) == Verbs(next) + FindVerbs(t, k);
    InnerIsRead(t, p, args, q);
    assert FindVerbs(t, p + 1) == Verbs(args) + FindVerbs(t, q + 1);
    VerbOfCall(t, i, pre, name, gap, p);
    assert FindVerbs(t, i) == VerbOf(name) + FindVerbs(t, p + 1);
    ReadInTurn(FindVerbs(t, i), FindVerbs(t, p + 1), FindVerbs(t, q + 1), FindVerbs(t, k),
               VerbOf(name), Verbs(args), Verbs(next));
  }

  lemma {:induction false} InnerIsRead(t: string, p: nat, args: Expr, q: nat)
    requires ExprOk(args) && p < |t| && t[p] == '(' && At(t, p + 1, RenderExpr(args))
    requires q == p + 1 + |RenderExpr(args)| && q < |t| && t[q] == ')'
    ensures FindVerbs(t, p + 1) == Verbs(args) + FindVerbs(t, q + 1)
    decreases args, 3
  {
    VerbsAreRead(t, p + 1, args, q);
    CloseIsPassed(t, q);
  }

  // ---------------------------------------------------------------------
  // The chain is read back
  // ---------------------------------------------------------------------

  lemma ExprIsRead(e: Expr)
    requires ExprOk(e)
    ensures FindVerbs(RenderExpr(e), 0) == Verbs(e)
  {
    var t := RenderExpr(e);
    VerbsAreRead(t, 0, e, |t|);
    assert FindVerbs(t, 0) == Verbs(e) + FindVerbs(t, |t|);
    assert Verbs(e) + [] == Verbs(e);
  }

  lemma ParsedFrom(args: string, c: nat, path: string, verbs: seq<Method>)
    requires TopComma(args, 0, 0) == Some(c) && PathLiteral(args[..c]) == Some(path)
    requires FindVerbs(args[c + 1..], 0) == verbs && verbs != []
    ensures ParseRoute(args) == Ok((path, verbs))
  {
  }

  lemma ArgsAreParsed(r: Route)
    requires RouteOk(r)
    ensures ParseRoute(RenderArgs(r)) == Ok((r.path, Verbs(r.expr)))
  {
    var t := RenderArgs(r);
    var c := |r.lead| + |r.path| + 2 + |r.gap|;
    CommaAfterPath(t, r);
    assert TopComma(t, 0, 0) == Some(c);
    PathIsRead(r);
    ExprIsRead(r.expr);
    assert t[c + 1..] == RenderExpr(r.expr);
    assert FindVerbs(t[c + 1..], 0) == Verbs(r.expr);
    ParsedFrom(t, c, r.path, Verbs(r.expr));
  }

  /** A route call cannot start in the text before it and end inside it. */
  lemma {:induction false} RouteIsFound(t: string, i: nat, filler: string)
    requires NoRoute(filler) && At(t, i, filler) && At(t, i + |filler|, ROUTE)
    ensures FindRoute(t, i) == Some(i + |filler|)
    decreases |filler|
  {
    if filler != [] {
      NoRouteStraddles(t, i, filler);
      assert filler == [filler[0]] + filler[1..];
      AtFirst(t, i, filler[0], filler[1..]);
      forall k | 0 <= k < |filler[1..]| ensures !At(filler[1..], k, ROUTE) { TailHasNoRoute(filler, k); }
      RouteIsFound(t, i + 1, filler[1..]);
    }
  }

  lemma TailHasNoRoute(filler: string, k: nat)
    requires NoRoute(filler) && k + 1 < |filler|
    ensures !At(filler[1..], k, ROUTE)
  {
    if At(filler[1..], k, ROUTE) {
      forall j | 0 <= j < |ROUTE| ensures filler[k + 1 + j] == ROUTE[j] { assert filler[1..][k + j] == ROUTE[j]; }
      assert At(filler, k + 1, ROUTE);
    }
  }

  lemma AtInside(t: string, i: nat, filler: string)
    requires At(t, i, filler) && At(t, i, ROUTE) && |ROUTE| <= |filler|
    ensures At(filler, 0, ROUTE)
  {
    forall j | 0 <= j < |ROUTE| ensures filler[0 + j] == ROUTE[j] {
      assert t[i + j] == ROUTE[j] && t[i + j] == filler[j];
    }
  }

  lemma NoRouteStraddles(t: string, i: nat, filler: string)
    requires filler != [] && NoRoute(filler) && At(t, i, filler)
    requires At(t, i + |filler|, ROUTE) || i + |filler| == |t|
    ensures !At(t, i, ROUTE)
  {
    assert |filler| < |ROUTE| ==> ROUTE[|filler|] != '.';
    assert i + |filler| < |t| ==> t[i + |filler| + 0] == ROUTE[0];
    if At(t, i, ROUTE) && |ROUTE| <= |filler| {
      AtInside(t, i, filler);
    }
  }

  lemma {:induction false} NoRouteIsFound(t: string, i: nat, tail: string)
    requires NoRoute(tail) && At(t, i, tail) && i + |tail| == |t|
    ensures FindRoute(t, i) == None
    decreases |tail|
  {
    if tail == [] {
      assert !At(t, i, ROUTE);
    } else {
      NoRouteStraddles(t, i, tail);
      assert tail == [tail[0]] + tail[1..];
      AtFirst(t, i, tail[0], tail[1..]);
      forall k | 0 <= k < |tail[1..]| ensures !At(tail[1..], k, ROUTE) { TailHasNoRoute(tail, k); }
      NoRouteIsFound(t, i + 1, tail[1..]);
    }
  }

  /** One link of a chain as it stands in a text. */
  lemma AtLink(t: string, i: nat, filler: string, args: string, rest: string)
    requires At(t, i, filler + ROUTE + args + [')'] + rest)
    ensures var s := i + |filler| + |ROUTE|;
            At(t, i, filler) && At(t, i + |filler|, ROUTE) && At(t, s, args + [')']) && At(t, s + |args| + 1, rest)
  {
    assert filler + ROUTE + args + [')'] + rest == filler + (ROUTE + ((args + [')']) + rest));
    AtSplit(t, i, filler, ROUTE + ((args + [')']) + rest));
    AtSplit(t, i + |filler|, ROUTE, (args + [')']) + rest);
    AtSplit(t, i + |filler| + |ROUTE|, args + [')'], rest);
  }

  lemma AtFits(t: string, i: nat, s: string)
    requires At(t, i, s)
    ensures i + |s| <= |t|
  {
  }

  lemma LinkIsRead(t: string, i: nat, filler: string, r: Route, rest: string)
    requires NoRoute(filler) && RouteOk(r) && At(t, i, filler + ROUTE + RenderArgs(r) + [')'] + rest)
    ensures var e := i + |filler| + |ROUTE| + |RenderArgs(r)| + 1;
            i <= |t| && At(t, e, rest) && NextCall(t, i) == Ok(Some((RenderArgs(r), e)))
  {
    hide At, CallEnd, FindRoute, RenderArgs, RouteOk, NoRoute;
    var s := i + |filler|;
    var a := RenderArgs(r);
    AtLink(t, i, filler, a, rest);
    AtFits(t, i, filler);
    RouteIsFound(t, i, filler);
    assert FindRoute(t, i) == Some(s);
    CallEndsAfterArgs(t, s + |ROUTE|, r);
    assert CallEnd(t, s + |ROUTE|, 1) == Some(s + |ROUTE| + |a| + 1);
    AtSplit(t, s + |ROUTE|, a, [')']);
    AtIsSlice(t, s + |ROUTE|, a);
  }

  lemma ExtractFrom(t: string, i: nat, e: nat, args: string, route: (string, seq<Method>),
                    list: seq<(string, seq<Method>)>)
    requires i <= |t| && NextCall(t, i) == Ok(Some((args, e)))
    requires ParseRoute(args) == Ok(route) && Extract(t, e) == Ok(list)
    ensures Extract(t, i) == Ok([route] + list)
  {
    assert Extract(t, e) == Ok(list);
  }

  lemma {:induction false} ChainIsRead(t: string, i: nat, c: Chain)
    requires ChainOk(c) && At(t, i, RenderChain(c)) && i + |RenderChain(c)| == |t|
    ensures Extract(t, i) == Ok(Listed(c))
    decreases c
  {
    match c
    case End(tail) =>
      NoRouteIsFound(t, i, tail);
    case Link(filler, r, rest) =>
      var e := i + |filler| + |ROUTE| + |RenderArgs(r)| + 1;
      LinkIsRead(t, i, filler, r, RenderChain(rest));
      ArgsAreParsed(r);
      ChainIsRead(t, e, rest);
      assert Extract(t, e) == Ok(Listed(rest));
      ExtractFrom(t, i, e, RenderArgs(r), (r.path, Verbs(r.expr)), Listed(rest));
      assert Extract(t, i) == Ok([(r.path, Verbs(r.expr))] + Listed(rest));
  }

  /** The extractor lists exactly the routes of a builder chain, in order, with their methods. */
  lemma ExtractorListsTheRoutes(c: Chain)
    requires ChainOk(c)
    ensures Extract(RenderChain(c), 0) == Ok(Listed(c))
  {
    ChainIsRead(RenderChain(c), 0, c);
  }

  lemma {:induction false} CalledAreVerbs(e: Expr)
    ensures |Called(e)| <= |Verbs(e)| && (|Called(e)| == |Verbs(e)| <==> Silent(e))
    ensures Silent(e) ==> Called(e) == Verbs(e)
    decreases e
  {
    match e
    case Done(_) =>
    case Lit(_, text, next) =>
      CalledAreVerbs(next);
      assert FindVerbs(text, 0) == [] ==> [] + Verbs(next) == Verbs(next);
    case Call(_, _, _, args, next) =>
      CalledAreVerbs(args);
      CalledAreVerbs(next);
  }

  /**
   The extractor lists just the methods an expression calls exactly when none of its
   literals spells a method call; otherwise it lists more.
   */
  lemma OnlyCalledAreReadIff(e: Expr)
    requires ExprOk(e)
    ensures FindVerbs(RenderExpr(e), 0) == Called(e) <==> Silent(e)
    ensures |FindVerbs(RenderExpr(e), 0)| >= |Called(e)|
  {
    ExprIsRead(e);
    CalledAreVerbs(e);
  }

  /** From the source text to the list: scanner and extractor together. */
  lemma RouterSourceIsRead(text: string, from: nat, open: nat, items: Items, c: Chain)
    requires HeaderAt(text, from, open) && ItemsOk(items) && At(text, open + 1, Closed(items))
    requires ChainOk(c) && Render(items) == RenderChain(c)
    ensures FunctionBody(text, from) == Some(RenderChain(c))
    ensures Extract(FunctionBody(text, from).value, 0) == Ok(Listed(c))
  {
    FindsTheBody(text, from, open, items);
    ExtractorListsTheRoutes(c);
  }

  // ---------------------------------------------------------------------
  // Comments are not understood
  // ---------------------------------------------------------------------

  /** A chain with block comments: each link, and the tail, may stand inside one. */
  datatype Source =
    | Tail(commented: bool, tail: string)
    | Item(commented: bool, filler: string, route: Route, rest: Source)

  /** What is written where a comment begins or ends. */
  function Mark(was: bool, now: bool): string {
    if was == now then "" else if now then ['/', '*'] else ['*', '/']
  }

  /** The text of a chain, `was` saying whether it starts inside a comment. */
  function RenderSource(s: Source, was: bool): string {
    match s
    case Tail(now, tail) => Mark(was, now) + tail + Mark(now, false)
    case Item(now, filler, route, rest) =>
      Mark(was, now) + filler + ROUTE + RenderArgs(route) + [')'] + RenderSource(rest, now)
  }

  predicate SourceOk(s: Source) {
    match s
    case Tail(_, tail) => NoRoute(tail)
    case Item(_, filler, route, rest) => NoRoute(filler) && RouteOk(route) && SourceOk(rest)
  }

  /** The routes outside comments. */
  function Live(s: Source): seq<(string, seq<Method>)> {
    match s
    case Tail(_, _) => []
    case Item(now, _, route, rest) => (if now then [] else [(route.path, Verbs(route.expr))]) + Live(rest)
  }

  predicate NoneCommented(s: Source) {
    match s
    case Tail(_, _) => true
    case Item(now, _, _, rest) => !now && NoneCommented(rest)
  }

  /** The chain that the extractor sees: comment delimiters are text before a link. */
  function Seen(s: Source, was: bool): Chain {
    match s
    case Tail(now, tail) => End(Mark(was, now) + tail + Mark(now, false))
    case Item(now, filler, route, rest) => Link(Mark(was, now) + filler, route, Seen(rest, now))
  }

  /** A comment delimiter adds no route call to either side of a text. */
  lemma MarkAddsNoRoute(was: bool, now: bool, b: string)
    requires NoRoute(b)
    ensures NoRoute(Mark(was, now) + b) && NoRoute(b + Mark(was, now))
  {
    var a := Mark(was, now);
    forall k | 0 <= k < |a + b| ensures !At(a + b, k, ROUTE) {
      if At(a + b, k, ROUTE) {
        assert (a + b)[k + 0] == ROUTE[0];
        assert k >= |a|;
        forall j | 0 <= j < |ROUTE| ensures b[k - |a| + j] == ROUTE[j] { assert (a + b)[k + j] == ROUTE[j]; }
        assert At(b, k - |a|, ROUTE);
      }
    }
    forall k | 0 <= k < |b + a| ensures !At(b + a, k, ROUTE) {
      if At(b + a, k, ROUTE) {
        assert (b + a)[k + 6] == ROUTE[6];
        forall j | 0 <= j < |ROUTE| ensures b[k + j] == ROUTE[j] { assert (b + a)[k + j] == ROUTE[j]; }
        assert At(b, k, ROUTE);
      }
    }
  }

  lemma {:induction false} SeenIsWritten(s: Source, was: bool)
    requires SourceOk(s)
    ensures ChainOk(Seen(s, was)) && RenderChain(Seen(s, was)) == RenderSource(s, was)
    decreases s
  {
    match s
    case Tail(now, tail) =>
      MarkAddsNoRoute(was, now, tail);
      MarkAddsNoRoute(now, false, Mark(was, now) + tail);
    case Item(now, filler, _, rest) =>
      MarkAddsNoRoute(was, now, filler);
      SeenIsWritten(rest, now);
  }

  lemma {:induction false} LiveAmongSeen(s: Source, was: bool)
    ensures |Live(s)| <= |Listed(Seen(s, was))| && (|Live(s)| == |Listed(Seen(s, was))| <==> NoneCommented(s))
    ensures NoneCommented(s) ==> Live(s) == Listed(Seen(s, was))
    decreases s
  {
    match s
    case Tail(_, _) =>
    case Item(now, _, _, rest) => LiveAmongSeen(rest, now);
  }

  /**
   The extractor lists the routes of a chain as if its comments were not there. It
   lists just the live ones exactly when no link is commented out.
   */
  lemma CommentedRoutesAreListedIff(s: Source)
    requires SourceOk(s)
    ensures Extract(RenderSource(s, false), 0) == Ok(Listed(Seen(s, false)))
    ensures Extract(RenderSource(s, false), 0) == Ok(Live(s)) <==> NoneCommented(s)
  {
    SeenIsWritten(s, false);
    ExtractorListsTheRoutes(Seen(s, false));
    LiveAmongSeen(s, false);
  }

  /** The whole chain in one comment. */
  function AllCommented(c: Chain): Source {
    match c
    case End(tail) => Tail(true, tail)
    case Link(filler, route, rest) => Item(true, filler, route, AllCommented(rest))
  }

  lemma TextAround(m: string, a: string, b: string, c: string, d: string, e: string, f: string)
    ensures m + a + b + c + d + (e + f) == m + (a + b + c + d + e) + f
  {
  }

  lemma {:induction false} AllCommentedIs(c: Chain, was: bool)
    requires ChainOk(c)
    ensures SourceOk(AllCommented(c)) && Listed(Seen(AllCommented(c), was)) == Listed(c)
    ensures RenderSource(AllCommented(c), was) == Mark(was, true) + RenderChain(c) + ['*', '/']
    decreases c
  {
    hide RenderArgs, RouteOk, NoRoute, Mark, Verbs;
    match c
    case End(_) =>
      MarksThere();
    case Link(filler, r, rest) =>
      AllCommentedIs(rest, true);
      MarksThere();
      assert RenderSource(AllCommented(rest), true) == RenderChain(rest) + ['*', '/'];
      TextAround(Mark(was, true), filler, ROUTE, RenderArgs(r), [')'], RenderChain(rest), ['*', '/']);
  }

  lemma MarksThere()
    ensures Mark(true, true) == "" && Mark(true, false) == ['*', '/'] && Mark(false, true) == ['/', '*']
  {
  }

  /** A builder chain that has been commented out is still listed whole. */
  lemma CommentedRoutesAreListed(c: Chain)
    requires ChainOk(c)
    ensures Extract(['/', '*'] + RenderChain(c) + ['*', '/'], 0) == Ok(Listed(c))
  {
    AllCommentedIs(c, false);
    CommentedRoutesAreListedIff(AllCommented(c));
  }

  // ---------------------------------------------------------------------
  // What is refused, and why
  // ---------------------------------------------------------------------

  /** Where a reader stands: among parentheses, or in a string literal, perhaps after a backslash. */
  datatype Place = Outside(level: int) | Inside(level: int, escaped: bool)

  /** One character further. */
  function Onward(p: Place, c: char): Place {
    match p
    case Inside(l, escaped) =>
      if escaped then Inside(l, false)
      else if c == '\\' then Inside(l, true)
      else if c == '"' then Outside(l) else p
    case Outside(l) =>
      if c == '"' then Inside(l, false)
      else if c == '(' then Outside(l + 1)
      else if c == ')' then Outside(l - 1) else p
  }

  /** Where a reader stands at `n` that began at `f`. */
  function PlaceAt(t: string, f: nat, n: nat): Place
    requires f <= n <= |t|
  {
    if n == f then Outside(0) else Onward(PlaceAt(t, f, n - 1), t[n - 1])
  }

  /** A literal that is open at `p` is left where `StringEnd` says, if anywhere. */
  lemma {:induction false} InsideUntil(t: string, f: nat, p: nat, l: int)
    requires f <= p <= |t| && PlaceAt(t, f, p) == Inside(l, false)
    ensures var q := StringEnd(t, p);
            && (forall k :: p <= k < (if q.Some? then q.value else |t| + 1) ==> PlaceAt(t, f, k).Inside?)
            && (q.Some? ==> PlaceAt(t, f, q.value) == Outside(l))
    decreases |t| - p
  {
    if p < |t| {
      assert PlaceAt(t, f, p + 1) == Onward(Inside(l, false), t[p]);
      if t[p] == '\\' {
        if p + 1 < |t| {
          assert PlaceAt(t, f, p + 2) == Onward(Inside(l, true), t[p + 1]);
          InsideUntil(t, f, p + 2, l);
        }
      } else if t[p] != '"' {
        InsideUntil(t, f, p + 1, l);
      }
    }
  }

  predicate CommaAt(t: string, n: nat) { n < |t| && t[n] == ',' && PlaceAt(t, 0, n) == Outside(0) }

  predicate FirstComma(t: string, n: nat) { CommaAt(t, n) && forall k :: 0 <= k < n ==> !CommaAt(t, k) }

  lemma {:induction false} CommaFrom(t: string, i: nat, l: int)
    requires i <= |t| && PlaceAt(t, 0, i) == Outside(l)
    ensures var n := TopComma(t, i, l);
            && (forall k :: i <= k < (if n.Some? then n.value else |t|) ==> !CommaAt(t, k))
            && (n.Some? ==> CommaAt(t, n.value))
    decreases |t| - i
  {
    if i < |t| {
      assert PlaceAt(t, 0, i + 1) == Onward(Outside(l), t[i]);
      if t[i] == '"' {
        InsideUntil(t, 0, i + 1, l);
        var q := StringEnd(t, i + 1);
        if q.Some? {
          CommaFrom(t, q.value, l);
        }
      } else if t[i] != ',' || l != 0 {
        CommaFrom(t, i + 1, if t[i] == '(' then l + 1 else if t[i] == ')' then l - 1 else l);
      }
    }
  }

  /** The arguments are split at the first comma outside parentheses and literals. */
  lemma SplitIff(t: string, n: nat)
    ensures TopComma(t, 0, 0) == Some(n) <==> FirstComma(t, n)
    ensures TopComma(t, 0, 0) == None <==> forall k :: 0 <= k < |t| ==> !CommaAt(t, k)
  {
    CommaFrom(t, 0, 0);
  }

  lemma {:induction false} ClosedFrom(t: string, f: nat, i: nat, d: nat)
    requires d >= 1 && f <= i <= |t| && PlaceAt(t, f, i) == Outside(d - 1)
    ensures var e := CallEnd(t, i, d);
            && (forall k :: i <= k < (if e.Some? then e.value else |t| + 1) ==> PlaceAt(t, f, k) != Outside(-1))
            && (e.Some? ==> PlaceAt(t, f, e.value) == Outside(-1))
    decreases |t| - i
  {
    if i < |t| {
      assert PlaceAt(t, f, i + 1) == Onward(Outside(d - 1), t[i]);
      if t[i] == '"' {
        InsideUntil(t, f, i + 1, d - 1);
        var q := StringEnd(t, i + 1);
        if q.Some? {
          ClosedFrom(t, f, q.value, d);
        }
      } else if t[i] != ')' || d > 1 {
        ClosedFrom(t, f, i + 1, if t[i] == '(' then d + 1 else if t[i] == ')' then d - 1 else d);
      }
    }
  }

  /** A call ends after the first parenthesis that closes more than was opened, outside literals. */
  lemma CallEndIff(t: string, f: nat, e: nat)
    requires f <= |t|
    ensures CallEnd(t, f, 1) == Some(e) <==>
              && f <= e <= |t| && PlaceAt(t, f, e) == Outside(-1)
              && forall k :: f <= k < e ==> PlaceAt(t, f, k) != Outside(-1)
    ensures CallEnd(t, f, 1) == None <==> forall k :: f <= k <= |t| ==> PlaceAt(t, f, k) != Outside(-1)
  {
    ClosedFrom(t, f, f, 1);
  }

  /** A literal path with blanks around it. */
  ghost predicate SpellsPath(s: string, path: string) {
    && path != [] && '"' !in path && '\\' !in path
    && exists lead, gap :: AllSpace(lead) && AllSpace(gap) && s == lead + (['"'] + path + ['"']) + gap
  }

  lemma {:induction false} Stripped(s: string) returns (a: string, b: string)
    ensures AllSpace(a) && AllSpace(b) && s == a + Strip(s) + b
    decreases |s|
  {
    a, b := [], [];
    if s != [] && IsSpace(s[0]) {
      a, b := Stripped(s[1..]);
      a := [s[0]] + a;
      assert s == [s[0]] + s[1..];
    } else if s != [] && IsSpace(Last(s)) {
      a, b := Stripped(Init(s));
      b := b + [Last(s)];
      assert s == Init(s) + [Last(s)];
    }
  }

  lemma PathLiteralIff(s: string, path: string)
    ensures PathLiteral(s) == Some(path) <==> SpellsPath(s, path)
  {
    if PathLiteral(s) == Some(path) {
      var a, b := Stripped(s);
      var t := Strip(s);
      assert t == ['"'] + path + ['"'];
    }
    if SpellsPath(s, path) {
      var lead, gap :| AllSpace(lead) && AllSpace(gap) && s == lead + (['"'] + path + ['"']) + gap;
      StripSpaces(lead, ['"'] + path + ['"'], gap);
      assert (['"'] + path + ['"'])[1..|path| + 1] == path;
    }
  }

  /**
   What is made of the arguments of one route call: no comma, no literal path before
   the first comma, no method after it, or the path and the methods.
   */
  lemma ParseRouteIff(args: string, path: string, verbs: seq<Method>)
    ensures ParseRoute(args) == Failed(NoComma) <==> forall n :: 0 <= n < |args| ==> !CommaAt(args, n)
    ensures ParseRoute(args) == Failed(PathNotLiteral) <==>
              exists n: nat :: FirstComma(args, n) && forall p :: !SpellsPath(args[..n], p)
    ensures ParseRoute(args) == Failed(NoMethod) <==>
              exists n: nat :: && FirstComma(args, n) && FindVerbs(args[n + 1..], 0) == []
                               && exists p :: SpellsPath(args[..n], p)
    ensures ParseRoute(args) == Ok((path, verbs)) <==>
              exists n: nat :: && FirstComma(args, n) && SpellsPath(args[..n], path)
                               && FindVerbs(args[n + 1..], 0) == verbs != []
  {
    hide FindVerbs, TopComma, PathLiteral, PlaceAt, SpellsPath;
    var comma := TopComma(args, 0, 0);
    SplitIff(args, if comma.Some? then comma.value else 0);
    if comma.None? {
      assert forall k: nat :: !FirstComma(args, k);
    } else {
      var n := comma.value;
      assert forall k: nat :: FirstComma(args, k) <==> k == n;
      assert CommaAt(args, n);
      forall p ensures PathLiteral(args[..n]) == Some(p) <==> SpellsPath(args[..n], p) {
        PathLiteralIff(args[..n], p);
      }
      var found := PathLiteral(args[..n]);
      assert found.Some? ==> SpellsPath(args[..n], found.value);
    }
  }

  /** The arguments of the calls that are complete, from `i` on. */
  function CallsFrom(body: string, i: nat): seq<string>
    requires i <= |body|
    decreases |body| - i
  {
    var call := NextCall(body, i);
    if call.Ok? && call.value.Some? then [call.value.value.0] + CallsFrom(body, call.value.value.1) else []
  }

  predicate AllComplete(body: string, i: nat)
    requires i <= |body|
    decreases |body| - i
  {
    var call := NextCall(body, i);
    call.Ok? && (call.value.Some? ==> AllComplete(body, call.value.value.1))
  }

  lemma ExtractStep(body: string, i: nat, args: string, e: nat)
    requires i <= |body| && NextCall(body, i) == Ok(Some((args, e)))
    ensures i < e <= |body|
    ensures CallsFrom(body, i) == [args] + CallsFrom(body, e) && (AllComplete(body, i) <==> AllComplete(body, e))
    ensures Extract(body, i) == if ParseRoute(args).Failed? then Failed(ParseRoute(args).why)
                                else Prepend([ParseRoute(args).value], Extract(body, e))
  {
    hide ParseRoute;
  }

  lemma ExtractEnds(body: string, i: nat)
    requires i <= |body| && (NextCall(body, i).Failed? || NextCall(body, i) == Ok(None))
    ensures CallsFrom(body, i) == [] && (AllComplete(body, i) <==> NextCall(body, i).Ok?)
    ensures Extract(body, i) == if AllComplete(body, i) then Ok([]) else Failed(UnbalancedCall)
  {
  }

  /** Call `n` cannot be used for this reason, and all before it can. */
  predicate FirstBad(body: string, i: nat, n: nat, why: Failure)
    requires i <= |body|
  {
    var calls := CallsFrom(body, i);
    && n <= |calls| && (forall k :: 0 <= k < n ==> ParseRoute(calls[k]).Ok?)
    && (if n < |calls| then ParseRoute(calls[n]) == Failed(why) else !AllComplete(body, i) && why == UnbalancedCall)
  }

  lemma NextIsBad(body: string, i: nat, args: string, e: nat)
    requires i <= |body| && e <= |body| && CallsFrom(body, i) == [args] + CallsFrom(body, e)
    requires AllComplete(body, i) <==> AllComplete(body, e)
    ensures ParseRoute(args).Failed? ==> FirstBad(body, i, 0, ParseRoute(args).why)
    ensures ParseRoute(args).Ok? ==> forall n: nat, why :: FirstBad(body, e, n, why) ==> FirstBad(body, i, n + 1, why)
  {
    hide ParseRoute, CallsFrom, AllComplete;
    var calls, rest := CallsFrom(body, i), CallsFrom(body, e);
    assert calls[0] == args;
    assert forall k :: 0 <= k < |rest| ==> rest[k] == calls[k + 1];
    assert forall k :: 0 < k < |calls| ==> calls[k] == rest[k - 1];
  }

  /**
   No call is passed over: the list has one entry for each, and there is a list only
   if all are complete and can be used; otherwise the first that cannot be used is
   what fails.
   */
  lemma {:induction false} ExtractAllOrFail(body: string, i: nat)
    requires i <= |body|
    ensures var calls, r := CallsFrom(body, i), Extract(body, i);
            && (r.Ok? <==> AllComplete(body, i) && forall k :: 0 <= k < |calls| ==> ParseRoute(calls[k]).Ok?)
            && (r.Ok? ==> |r.value| == |calls|
                          && forall k :: 0 <= k < |calls| ==> ParseRoute(calls[k]) == Ok(r.value[k]))
            && (r.Failed? ==> exists n: nat :: FirstBad(body, i, n, r.why))
    decreases |body| - i
  {
    hide NextCall, ParseRoute, Extract, CallsFrom, AllComplete;
    var call := NextCall(body, i);
    if call.Failed? || call.value.None? {
      ExtractEnds(body, i);
      assert !AllComplete(body, i) ==> FirstBad(body, i, 0, UnbalancedCall);
    } else {
      var (args, e) := call.value.value;
      ExtractStep(body, i, args, e);
      ExtractAllOrFail(body, e);
      NextIsBad(body, i, args, e);
      var calls, rest := CallsFrom(body, i), CallsFrom(body, e);
      assert calls[0] == args;
      assert forall k :: 0 <= k < |rest| ==> rest[k] == calls[k + 1];
      assert forall k :: 0 < k < |calls| ==> calls[k] == rest[k - 1];
    }
  }

  /** The five methods, as they are written. */
  lemma MethodsAreSpelled(t: string, i: nat)
    ensures MethodAt(t, i, 0) == Some(Get) <==> At(t, i, "get")
    ensures MethodAt(t, i, 0) == Some(Post) <==> At(t, i, "post")
    ensures MethodAt(t, i, 0) == Some(Put) <==> At(t, i, "put")
    ensures MethodAt(t, i, 0) == Some(Delete) <==> At(t, i, "delete")
    ensures MethodAt(t, i, 0) == Some(Patch) <==> At(t, i, "patch")
  {
    forall m: Method ensures MethodAt(t, i, 0) == Some(m) <==> At(t, i, Spelling(m)) {
      if At(t, i, Spelling(m)) {
        MethodIsFound(t, i, m);
      }
    }
  }

  // ---------------------------------------------------------------------
  // The gate
  // ---------------------------------------------------------------------

  /** An operation: a method and a path with its exact parameter names. */
  type Operation = (Method, string)

  datatype Verdict =
    | Passed
    | ExceptionFrozen(ops: set<Operation>)
    | AliasFrozen(ops: set<Operation>)
    | StaleException(ops: set<Operation>)
    | StaleAlias(ops: set<Operation>)
    | Undeclared(ops: set<Operation>)
    | Missing(ops: set<Operation>)

  /** The checks in their order; each failure names exactly the operations it is about. */
  method CheckSurface(runtime: set<Operation>, frozen: set<Operation>, exceptions: set<Operation>,
                      aliases: set<Operation>)
    returns (v: Verdict)
    ensures v.Passed? <==> runtime == frozen + exceptions + aliases && frozen !! exceptions && frozen !! aliases
    ensures !v.Passed? ==> v.ops != {}
    ensures v.ExceptionFrozen? ==> v.ops == exceptions * frozen
    ensures v.AliasFrozen? ==> v.ops == aliases * frozen && exceptions !! frozen
    ensures v.StaleException? || v.StaleAlias? || v.Undeclared? || v.Missing? ==> frozen !! exceptions + aliases
    ensures v.StaleException? ==> v.ops == exceptions - runtime
    ensures v.StaleAlias? ==> v.ops == aliases - runtime && exceptions <= runtime
    ensures v.Undeclared? ==> v.ops == runtime - (frozen + exceptions + aliases) && exceptions + aliases <= runtime
    ensures v.Missing? ==> v.ops == frozen - runtime && exceptions + aliases <= runtime <= frozen + exceptions + aliases
  {
    if exceptions * frozen != {} {
      return ExceptionFrozen(exceptions * frozen);
    }
    assert forall op :: op in exceptions && op in frozen ==> op in exceptions * frozen;
    if aliases * frozen != {} {
      return AliasFrozen(aliases * frozen);
    }
    assert forall op :: op in aliases && op in frozen ==> op in aliases * frozen;
    if !(exceptions <= runtime) {
      ghost var op :| op in exceptions && op !in runtime;
      assert op in exceptions - runtime;
      return StaleException(exceptions - runtime);
    }
    if !(aliases <= runtime) {
      ghost var op :| op in aliases && op !in runtime;
      assert op in aliases - runtime;
      return StaleAlias(aliases - runtime);
    }
    var undeclared := runtime - frozen - exceptions - aliases;
    var missing := frozen - runtime;
    if undeclared != {} {
      ghost var op :| op in undeclared;
      assert op in runtime && op !in frozen + exceptions + aliases;
      return Undeclared(undeclared);
    }
    assert undeclared == runtime - (frozen + exceptions + aliases);
    if missing != {} {
      ghost var op :| op in missing;
      assert op in frozen + exceptions + aliases && op !in runtime;
      assert forall o :: o in runtime && o !in frozen + exceptions + aliases ==> o in undeclared;
      return Missing(missing);
    }
    assert runtime == frozen + exceptions + aliases by {
      assert forall op :: op in frozen && op !in runtime ==> op in missing;
      assert forall op :: op in runtime && op !in frozen + exceptions + aliases ==> op in undeclared;
    }
    v := Passed;
  }
}
