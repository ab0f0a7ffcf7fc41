/**
 The lexical scanner of the route-surface gate: finding the body of a router
 function among strings, comments and nested braces.
 */
module RouteScanner {
  import opened Prelude
  import opened Texts

  // ---------------------------------------------------------------------
  // What a function body is
  // ---------------------------------------------------------------------

  /** The inside of a block comment: characters and nested block comments. */
  datatype Pieces =
    | NoPiece
    | CommentChar(c: char, next: Pieces)
    | Nested(inner: Pieces, next: Pieces)

  /** Code between braces, up to but without its closing brace. */
  datatype Items =
    | NoItem
    | Char(c: char, rest: Items)
    | Text(text: string, rest: Items)            // a string literal, escapes included
    | LineComment(text: string, rest: Items)
    | BlockComment(pieces: Pieces, rest: Items)
    | Group(body: Items, rest: Items)

  function RenderPieces(ps: Pieces): string {
    match ps
    case NoPiece => ['*', '/']
    case CommentChar(c, next) => [c] + RenderPieces(next)
    case Nested(inner, next) => ['/', '*'] + RenderPieces(inner) + RenderPieces(next)
  }

  function Render(items: Items): string {
    match items
    case NoItem => []
    case Char(c, rest) => [c] + Render(rest)
    case Text(text, rest) => ['"'] + text + ['"'] + Render(rest)
    case LineComment(text, rest) => ['/', '/'] + text + ['\n'] + Render(rest)
    case BlockComment(ps, rest) => ['/', '*'] + RenderPieces(ps) + Render(rest)
    case Group(body, rest) => ['{'] + Render(body) + ['}'] + Render(rest)
  }

  /** The first character of what is rendered, the closing delimiter included. */
  function PieceHead(ps: Pieces): char {
    match ps
    case NoPiece => '*'
    case CommentChar(c, _) => c
    case Nested(_, _) => '/'
  }

  function Head(items: Items): char {
    match items
    case NoItem => '}'
    case Char(c, _) => c
    case Text(_, _) => '"'
    case LineComment(_, _) => '/'
    case BlockComment(_, _) => '/'
    case Group(_, _) => '{'
  }

  /** No two comment characters form a delimiter by accident. */
  predicate PiecesOk(ps: Pieces) {
    match ps
    case NoPiece => true
    case CommentChar(c, next) =>
      !(c == '/' && PieceHead(next) == '*') && !(c == '*' && PieceHead(next) == '/') && PiecesOk(next)
    case Nested(inner, next) => PiecesOk(inner) && PiecesOk(next)
  }

  /** The text between the quotes of a string literal: every quote is escaped. */
  predicate StringText(s: string) {
    s == [] ||
    (if s[0] == '\\' then |s| >= 2 && StringText(s[2..]) else s[0] != '"' && StringText(s[1..]))
  }

  /** Code written without character literals: quotes and braces only where they delimit. */
  predicate ItemsOk(items: Items) {
    match items
    case NoItem => true
    case Char(c, rest) =>
      c != '"' && c != '{' && c != '}' && !(c == '/' && (Head(rest) == '/' || Head(rest) == '*')) && ItemsOk(rest)
    case Text(text, rest) => StringText(text) && ItemsOk(rest)
    case LineComment(text, rest) => '\n' !in text && ItemsOk(rest)
    case BlockComment(ps, rest) => PiecesOk(ps) && ItemsOk(rest)
    case Group(body, rest) => ItemsOk(body) && ItemsOk(rest)
  }

  // ---------------------------------------------------------------------
  // The scanner
  // ---------------------------------------------------------------------

  /** The characters at `i` and after it are `a` and `b`. */
  predicate Pair(text: string, i: nat, a: char, b: char) { i + 1 < |text| && text[i] == a && text[i + 1] == b }

  /** The place after the quote that ends a string literal. */
  function StringEnd(text: string, i: nat): (r: Option<nat>)
    requires i <= |text|
    ensures r.Some? ==> i < r.value <= |text|
    decreases |text| - i
  {
    if i == |text| then None
    else if text[i] == '"' then Some(i + 1)
    else if text[i] != '\\' then StringEnd(text, i + 1)
    else if i + 1 == |text| then None
    else StringEnd(text, i + 2)
  }

  /** The place after the line feed that ends a line comment. */
  function LineEnd(text: string, i: nat): (r: Option<nat>)
    requires i <= |text|
    ensures r.Some? ==> i < r.value <= |text|
    decreases |text| - i
  {
    if i == |text| then None else if text[i] == '\n' then Some(i + 1) else LineEnd(text, i + 1)
  }

  /** The place after the delimiter that closes the outermost of `depth` block comments. */
  function BlockEnd(text: string, i: nat, depth: nat): (r: Option<nat>)
    requires i <= |text| && depth >= 1
    ensures r.Some? ==> i < r.value <= |text|
    decreases |text| - i
  {
    if i == |text| then None
    else if Pair(text, i, '/', '*') then BlockEnd(text, i + 2, depth + 1)
    else if Pair(text, i, '*', '/') then if depth == 1 then Some(i + 2) else BlockEnd(text, i + 2, depth - 1)
    else BlockEnd(text, i + 1, depth)
  }

  /** The place after the token at `i`; comments and string literals are one token each. */
  function TokenEnd(text: string, i: nat): (r: Option<nat>)
    requires i < |text|
    ensures r.Some? ==> i < r.value <= |text|
  {
    if Pair(text, i, '/', '/') then LineEnd(text, i + 2)
    else if Pair(text, i, '/', '*') then BlockEnd(text, i + 2, 1)
    else if text[i] == '"' then StringEnd(text, i + 1)
    else Some(i + 1)
  }

  /** The open braces after the token at `i`. */
  function DepthAfter(text: string, i: nat, depth: nat): nat
    requires i < |text| && depth >= 1
  {
    if text[i] == '{' then depth + 1 else if text[i] == '}' then depth - 1 else depth
  }

  /** Where, read from `i` on inside `depth` open braces, the outermost of them is closed. */
  function Scan(text: string, i: nat, depth: nat): (r: Option<nat>)
    requires i <= |text| && depth >= 1
    ensures r.Some? ==> i <= r.value < |text| && text[r.value] == '}'
    decreases |text| - i
  {
    if i == |text| then None
    else
      var next := TokenEnd(text, i);
      var deep := DepthAfter(text, i, depth);
      if deep == 0 then Some(i) else if next.None? then None else Scan(text, next.value, deep)
  }

  function Then(text: string, next: Option<nat>, depth: nat): Option<nat>
    requires depth >= 1 && (next.Some? ==> next.value <= |text|)
  {
    if next.None? then None else Scan(text, next.value, depth)
  }

  /** The first place, from `i` on, where `c` occurs. */
  function Find(text: string, i: nat, c: char): (r: Option<nat>)
    requires i <= |text|
    ensures r.Some? ==> i <= r.value < |text| && text[r.value] == c
    decreases |text| - i
  {
    if i == |text| then None else if text[i] == c then Some(i) else Find(text, i + 1, c)
  }

  /** The body of the function whose header starts at `from`. */
  function FunctionBody(text: string, from: nat): Option<string>
    requires from <= |text|
  {
    var open := Find(text, from, '{');
    if open.None? then None
    else
      var close := Scan(text, open.value + 1, 1);
      if close.None? then None else Some(text[open.value + 1..close.value])
  }

  /** What remains to be scanned when the loop stands at `i` with these flags. */
  function Pending(text: string, i: nat, depth: nat, inString: bool, escaped: bool, inLine: bool,
                   blockDepth: nat): Option<nat>
    requires i <= |text| && depth >= 1
  {
    if inLine then Then(text, LineEnd(text, i), depth)
    else if blockDepth > 0 then Then(text, BlockEnd(text, i, blockDepth), depth)
    else if !inString then Scan(text, i, depth)
    else if !escaped then Then(text, StringEnd(text, i), depth)
    else if i == |text| then None
    else Then(text, StringEnd(text, i + 1), depth)
  }

  /** The scanning loop of the gate, with its flags and its index. */
  method FindFunctionBody(text: string, from: nat) returns (r: Option<string>)
    requires from <= |text|
    ensures r == FunctionBody(text, from)
  {
    var open := Find(text, from, '{');
    if open.None? {
      return None;
    }
    var start := open.value;
    var depth := 0;
    var i := start;
    var inString, escaped, inLine, blockDepth := false, false, false, 0;
    ghost var whole := Scan(text, start + 1, 1);
    while i < |text|
      invariant start <= i <= |text| && depth >= 0 && blockDepth >= 0
      invariant depth == 0 ==> i == start && !inString && !inLine && blockDepth == 0
      invariant inString ==> !inLine && blockDepth == 0
      invariant inLine ==> blockDepth == 0
      invariant escaped ==> inString
      invariant depth >= 1 ==> whole == Pending(text, i, depth, inString, escaped, inLine, blockDepth)
      decreases |text| - i
    {
      var c := text[i];
      if inLine {
        if c == '\n' { inLine := false; }
        i := i + 1;
        continue;
      }
      if blockDepth > 0 {
        if Pair(text, i, '/', '*') {
          blockDepth := blockDepth + 1;
          i := i + 2;
          continue;
        }
        if Pair(text, i, '*', '/') {
          blockDepth := blockDepth - 1;
          i := i + 2;
          continue;
        }
        i := i + 1;
        continue;
      }
      if inString {
        if escaped {
          escaped := false;
        } else if c == '\\' {
          escaped := true;
        } else if c == '"' {
          inString := false;
        }
        i := i + 1;
        continue;
      }
      if Pair(text, i, '/', '/') {
        inLine := true;
        i := i + 2;
        continue;
      }
      if Pair(text, i, '/', '*') {
        blockDepth := 1;
        i := i + 2;
        continue;
      }
      if c == '"' {
        inString := true;
        i := i + 1;
        continue;
      }
      if c == '{' {
        depth := depth + 1;
      } else if c == '}' {
        depth := depth - 1;
        if depth == 0 {
          return Some(text[start + 1..i]);
        }
      }
      i := i + 1;
    }
    r := None;
  }

  // ---------------------------------------------------------------------
  // Every rendered body is found
  // ---------------------------------------------------------------------

  lemma {:induction false} SkipString(text: string, i: nat, s: string)
    requires StringText(s) && At(text, i, s + ['"'])
    ensures StringEnd(text, i) == Some(i + |s| + 1)
    decreases |s|
  {
    if s == [] {
      AtChar(text, i, '"');
      assert s + ['"'] == ['"'];
    } else {
      var n := if s[0] == '\\' then 2 else 1;
      assert s + ['"'] == s[..n] + (s[n..] + ['"']);
      AtSplit(text, i, s[..n], s[n..] + ['"']);
      assert text[i] == text[i..i + n][0] == s[0];
      SkipString(text, i + n, s[n..]);
    }
  }

  lemma {:induction false} SkipLine(text: string, i: nat, s: string)
    requires '\n' !in s && At(text, i, s + ['\n'])
    ensures LineEnd(text, i) == Some(i + |s| + 1)
    decreases |s|
  {
    if s == [] {
      AtChar(text, i, '\n');
      assert s + ['\n'] == ['\n'];
    } else {
      assert s + ['\n'] == [s[0]] + (s[1..] + ['\n']);
      AtSplit(text, i, [s[0]], s[1..] + ['\n']);
      AtChar(text, i, s[0]);
      SkipLine(text, i + 1, s[1..]);
    }
  }

  /** A two-character delimiter at `i`, and what follows it. */
  lemma AtPair(text: string, i: nat, a: char, b: char, s: string)
    ensures At(text, i, [a, b] + s) <==> Pair(text, i, a, b) && At(text, i + 2, s)
  {
    AtSplit(text, i, [a, b], s);
    assert [a, b] == [a] + [b];
    AtSplit(text, i, [a], [b]);
    AtChar(text, i, a);
    AtChar(text, i + 1, b);
  }

  // The same, read off structurally: where the parts of a body stand in a text.

  function PiecesSize(ps: Pieces): nat {
    match ps
    case NoPiece => 2
    case CommentChar(_, next) => 1 + PiecesSize(next)
    case Nested(inner, next) => 2 + PiecesSize(inner) + PiecesSize(next)
  }

  function Size(items: Items): nat {
    match items
    case NoItem => 0
    case Char(_, rest) => 1 + Size(rest)
    case Text(s, rest) => 2 + |s| + Size(rest)
    case LineComment(s, rest) => 3 + |s| + Size(rest)
    case BlockComment(ps, rest) => 2 + PiecesSize(ps) + Size(rest)
    case Group(body, rest) => 2 + Size(body) + Size(rest)
  }

  predicate PiecesStand(text: string, i: nat, ps: Pieces)
    decreases ps
  {
    match ps
    case NoPiece => Pair(text, i, '*', '/')
    case CommentChar(c, next) => i < |text| && text[i] == c && PiecesStand(text, i + 1, next)
    case Nested(inner, next) =>
      Pair(text, i, '/', '*') && PiecesStand(text, i + 2, inner) && PiecesStand(text, i + 2 + PiecesSize(inner), next)
  }

  /** The items stand at `i`, and a closing brace after them. */
  predicate Stand(text: string, i: nat, items: Items)
    decreases items
  {
    match items
    case NoItem => i < |text| && text[i] == '}'
    case Char(c, rest) => i < |text| && text[i] == c && Stand(text, i + 1, rest)
    case Text(s, rest) => i < |text| && text[i] == '"' && At(text, i + 1, s + ['"']) && Stand(text, i + 2 + |s|, rest)
    case LineComment(s, rest) =>
      Pair(text, i, '/', '/') && At(text, i + 2, s + ['\n']) && Stand(text, i + 3 + |s|, rest)
    case BlockComment(ps, rest) =>
      Pair(text, i, '/', '*') && PiecesStand(text, i + 2, ps) && Stand(text, i + 2 + PiecesSize(ps), rest)
    case Group(body, rest) =>
      i < |text| && text[i] == '{' && Stand(text, i + 1, body) && Stand(text, i + 2 + Size(body), rest)
  }

  /** Code and the brace that closes it. */
  function Closed(items: Items): string { Render(items) + ['}'] }

  lemma AtNested(text: string, i: nat, inner: Pieces, next: Pieces)
    ensures At(text, i, RenderPieces(Nested(inner, next)))
       <==> && Pair(text, i, '/', '*') && At(text, i + 2, RenderPieces(inner))
            && At(text, i + 2 + PiecesSize(inner), RenderPieces(next))
  {
    PiecesSizeIsLength(inner);
    assert RenderPieces(Nested(inner, next)) == ['/', '*'] + (RenderPieces(inner) + RenderPieces(next));
    AtPair(text, i, '/', '*', RenderPieces(inner) + RenderPieces(next));
    AtSplit(text, i + 2, RenderPieces(inner), RenderPieces(next));
  }

  lemma {:induction false} PiecesSizeIsLength(ps: Pieces)
    ensures |RenderPieces(ps)| == PiecesSize(ps)
    decreases ps
  {
    match ps
    case NoPiece =>
    case CommentChar(_, next) => PiecesSizeIsLength(next);
    case Nested(inner, next) =>
      PiecesSizeIsLength(inner);
      PiecesSizeIsLength(next);
  }

  lemma {:induction false} PiecesStandWhereRendered(text: string, i: nat, ps: Pieces)
    ensures At(text, i, RenderPieces(ps)) <==> PiecesStand(text, i, ps)
    decreases ps, 1
  {
    match ps
    case NoPiece =>
      assert ['*', '/'] == ['*', '/'] + [];
      AtPair(text, i, '*', '/', []);
    case CommentChar(c, next) =>
      AtFirst(text, i, c, RenderPieces(next));
      PiecesStandWhereRendered(text, i + 1, next);
    case Nested(inner, next) =>
      NestedStands(text, i, inner, next);
  }

  lemma {:induction false} NestedStands(text: string, i: nat, inner: Pieces, next: Pieces)
    ensures At(text, i, RenderPieces(Nested(inner, next))) <==> PiecesStand(text, i, Nested(inner, next))
    decreases Nested(inner, next), 0
  {
    hide At, RenderPieces;
    var j := i + 2 + PiecesSize(inner);
    if Pair(text, i, '/', '*') {
      PiecesStandWhereRendered(text, i + 2, inner);
      PiecesStandWhereRendered(text, j, next);
    }
    AtNested(text, i, inner, next);
  }

  // How each kind of item stands in a text.

  lemma AtItem(text: string, i: nat, c: char, rest: Items)
    ensures At(text, i, Closed(Char(c, rest))) <==> i < |text| && text[i] == c && At(text, i + 1, Closed(rest))
  {
    assert Closed(Char(c, rest)) == [c] + Closed(rest);
    AtFirst(text, i, c, Closed(rest));
  }

  lemma AtText(text: string, i: nat, s: string, rest: Items)
    ensures At(text, i, Closed(Text(s, rest)))
       <==> i < |text| && text[i] == '"' && At(text, i + 1, s + ['"']) && At(text, i + 2 + |s|, Closed(rest))
  {
    assert Closed(Text(s, rest)) == ['"'] + ((s + ['"']) + Closed(rest));
    AtFirst(text, i, '"', (s + ['"']) + Closed(rest));
    AtSplit(text, i + 1, s + ['"'], Closed(rest));
  }

  lemma AtLine(text: string, i: nat, s: string, rest: Items)
    ensures At(text, i, Closed(LineComment(s, rest)))
       <==> Pair(text, i, '/', '/') && At(text, i + 2, s + ['\n']) && At(text, i + 3 + |s|, Closed(rest))
  {
    assert Closed(LineComment(s, rest)) == ['/', '/'] + ((s + ['\n']) + Closed(rest));
    AtPair(text, i, '/', '/', (s + ['\n']) + Closed(rest));
    AtSplit(text, i + 2, s + ['\n'], Closed(rest));
  }

  lemma AtBlock(text: string, i: nat, ps: Pieces, rest: Items)
    ensures At(text, i, Closed(BlockComment(ps, rest)))
       <==> && Pair(text, i, '/', '*') && At(text, i + 2, RenderPieces(ps))
            && At(text, i + 2 + PiecesSize(ps), Closed(rest))
  {
    PiecesSizeIsLength(ps);
    assert Closed(BlockComment(ps, rest)) == ['/', '*'] + (RenderPieces(ps) + Closed(rest));
    AtPair(text, i, '/', '*', RenderPieces(ps) + Closed(rest));
    AtSplit(text, i + 2, RenderPieces(ps), Closed(rest));
  }

  lemma AtGroup(text: string, i: nat, j: nat, body: Items, rest: Items)
    requires j == i + 2 + Size(body)
    ensures At(text, i, Closed(Group(body, rest)))
       <==> i < |text| && text[i] == '{' && At(text, i + 1, Closed(body)) && At(text, j, Closed(rest))
  {
    SizeIsLength(body);
    assert Closed(Group(body, rest)) == ['{'] + (Closed(body) + Closed(rest));
    AtFirst(text, i, '{', Closed(body) + Closed(rest));
    AtSplit(text, i + 1, Closed(body), Closed(rest));
  }

  lemma {:induction false} SizeIsLength(items: Items)
    ensures |Render(items)| == Size(items)
    decreases items
  {
    match items
    case NoItem =>
    case Char(_, rest) => SizeIsLength(rest);
    case Text(_, rest) => SizeIsLength(rest);
    case LineComment(_, rest) => SizeIsLength(rest);
    case BlockComment(ps, rest) =>
      PiecesSizeIsLength(ps);
      SizeIsLength(rest);
    case Group(body, rest) =>
      SizeIsLength(body);
      SizeIsLength(rest);
  }

  /** Rendered code stands in a text exactly where its parts do. */
  lemma {:induction false} StandWhereRendered(text: string, i: nat, items: Items)
    ensures At(text, i, Closed(items)) <==> Stand(text, i, items)
    decreases items, 1
  {
    match items
    case NoItem =>
      AtChar(text, i, '}');
      assert Closed(items) == ['}'];
    case Char(c, rest) =>
      AtItem(text, i, c, rest);
      StandWhereRendered(text, i + 1, rest);
    case Text(s, rest) =>
      AtText(text, i, s, rest);
      StandWhereRendered(text, i + 2 + |s|, rest);
    case LineComment(s, rest) =>
      AtLine(text, i, s, rest);
      StandWhereRendered(text, i + 3 + |s|, rest);
    case BlockComment(ps, rest) =>
      BlockStands(text, i, ps, rest);
    case Group(body, rest) =>
      GroupStands(text, i, body, rest);
  }

  lemma {:induction false} BlockStands(text: string, i: nat, ps: Pieces, rest: Items)
    ensures At(text, i, Closed(BlockComment(ps, rest))) <==> Stand(text, i, BlockComment(ps, rest))
    decreases BlockComment(ps, rest), 0
  {
    AtBlock(text, i, ps, rest);
    PiecesStandWhereRendered(text, i + 2, ps);
    StandWhereRendered(text, i + 2 + PiecesSize(ps), rest);
    assert Stand(text, i, BlockComment(ps, rest))
      <==> Pair(text, i, '/', '*') && PiecesStand(text, i + 2, ps) && Stand(text, i + 2 + PiecesSize(ps), rest);
  }

  lemma {:induction false} GroupStands(text: string, i: nat, body: Items, rest: Items)
    ensures At(text, i, Closed(Group(body, rest))) <==> Stand(text, i, Group(body, rest))
    decreases Group(body, rest), 0
  {
    var j := i + 2 + Size(body);
    AtGroup(text, i, j, body, rest);
    if i < |text| && text[i] == '{' {
      StandWhereRendered(text, i + 1, body);
      StandWhereRendered(text, j, rest);
    }
  }

  // Passing over each kind of token.

  /** What the end of `k` comments is when the innermost one ends at `j`. */
  function BlockClosed(text: string, j: nat, k: nat): Option<nat>
    requires j <= |text| && k >= 1
  {
    if k == 1 then Some(j) else BlockEnd(text, j, k - 1)
  }

  /** A comment's text from `i` on, read piece by piece, ends where the scan says. */
  predicate BlockRead(text: string, i: nat, k: nat, ps: Pieces)
    requires i <= |text| && k >= 1
  {
    && PiecesOk(ps) && PiecesStand(text, i, ps) && i + PiecesSize(ps) <= |text|
    && BlockEnd(text, i, k) == BlockClosed(text, i + PiecesSize(ps), k)
  }

  lemma {:induction false} BlockOpens(text: string, i: nat, k: nat)
    requires k >= 1 && Pair(text, i, '/', '*')
    ensures BlockEnd(text, i, k) == BlockEnd(text, i + 2, k + 1)
  {
  }

  lemma {:induction false} NestedRead(text: string, i: nat, k: nat, inner: Pieces, j: nat, next: Pieces)
    requires k >= 1 && Pair(text, i, '/', '*') && BlockRead(text, i + 2, k + 1, inner)
    requires j == i + 2 + PiecesSize(inner) && BlockRead(text, j, k, next)
    ensures BlockRead(text, i, k, Nested(inner, next))
  {
    hide BlockEnd;
    BlockOpens(text, i, k);
    assert j + PiecesSize(next) == i + PiecesSize(Nested(inner, next));
  }

  lemma {:induction false} CharRead(text: string, i: nat, k: nat, next: Pieces)
    requires k >= 1 && i < |text| && !Pair(text, i, '/', '*') && !Pair(text, i, '*', '/')
    requires BlockRead(text, i + 1, k, next)
    ensures BlockRead(text, i, k, CommentChar(text[i], next))
  {
    assert text[i + 1] == PieceHead(next);
  }

  lemma {:induction false} ClosedRead(text: string, i: nat, k: nat)
    requires k >= 1 && Pair(text, i, '*', '/')
    ensures BlockRead(text, i, k, NoPiece)
  {
  }

  lemma {:induction false} SkipBlock(text: string, i: nat, ps: Pieces, k: nat)
    requires k >= 1 && PiecesOk(ps) && PiecesStand(text, i, ps)
    ensures i <= |text| && BlockRead(text, i, k, ps)
    decreases ps
  {
    hide BlockEnd, PiecesSize;
    match ps
    case NoPiece => ClosedRead(text, i, k);
    case CommentChar(c, next) =>
      SkipBlock(text, i + 1, next, k);
      assert text[i + 1] == PieceHead(next);
      CharRead(text, i, k, next);
    case Nested(inner, next) =>
      SkipBlock(text, i + 2, inner, k + 1);
      SkipBlock(text, i + 2 + PiecesSize(inner), next, k);
      NestedRead(text, i, k, inner, i + 2 + PiecesSize(inner), next);
  }

  lemma {:induction false} ReadBlock(text: string, i: nat, k: nat) returns (ps: Pieces)
    requires i <= |text| && k >= 1 && BlockEnd(text, i, k).Some?
    ensures BlockRead(text, i, k, ps)
    decreases |text| - i
  {
    hide PiecesStand, PiecesOk, PiecesSize;
    if Pair(text, i, '/', '*') {
      var inner := ReadBlock(text, i + 2, k + 1);
      var j := i + 2 + PiecesSize(inner);
      var next := ReadBlock(text, j, k);
      NestedRead(text, i, k, inner, j, next);
      ps := Nested(inner, next);
    } else if Pair(text, i, '*', '/') {
      ps := NoPiece;
      ClosedRead(text, i, k);
    } else {
      var next := ReadBlock(text, i + 1, k);
      CharRead(text, i, k, next);
      ps := CommentChar(text[i], next);
    }
  }

  lemma {:induction false} ReadString(text: string, i: nat) returns (s: string)
    requires i <= |text| && StringEnd(text, i).Some?
    ensures StringText(s) && At(text, i, s + ['"'])
    ensures StringEnd(text, i) == Some(i + |s| + 1)
    decreases |text| - i
  {
    if text[i] == '"' {
      s := [];
      AtChar(text, i, '"');
      assert s + ['"'] == ['"'];
    } else {
      var n := if text[i] == '\\' then 2 else 1;
      var s' := ReadString(text, i + n);
      s := text[i..i + n] + s';
      assert s[n..] == s' && s[0] == text[i];
      assert s + ['"'] == text[i..i + n] + (s' + ['"']);
      AtSplit(text, i, text[i..i + n], s' + ['"']);
    }
  }

  lemma {:induction false} ReadLine(text: string, i: nat) returns (s: string)
    requires i <= |text| && LineEnd(text, i).Some?
    ensures '\n' !in s && At(text, i, s + ['\n'])
    ensures LineEnd(text, i) == Some(i + |s| + 1)
    decreases |text| - i
  {
    if text[i] == '\n' {
      s := [];
      AtChar(text, i, '\n');
      assert s + ['\n'] == ['\n'];
    } else {
      var s' := ReadLine(text, i + 1);
      s := [text[i]] + s';
      assert s + ['\n'] == [text[i]] + (s' + ['\n']);
      AtFirst(text, i, text[i], s' + ['\n']);
    }
  }

  // ---------------------------------------------------------------------
  // What the scanner accepts
  // ---------------------------------------------------------------------

  /** What a scan gives when it first closes a brace at `j`. */
  function AfterBrace(text: string, j: nat, d: nat): Option<nat>
    requires j < |text| && d >= 1
  {
    if d == 1 then Some(j) else Scan(text, j + 1, d - 1)
  }

  /** The scan from `i` first closes a brace at `k`. */
  predicate Closes(text: string, i: nat, k: nat, d: nat) {
    i <= |text| && k < |text| && d >= 1 && Scan(text, i, d) == AfterBrace(text, k, d)
  }

  /** A token that leaves the depth as it is can be put before code. */
  lemma TokenFirst(text: string, i: nat, j: nat, k: nat, d: nat)
    requires i < j <= |text| && d >= 1 && TokenEnd(text, i) == Some(j) && text[i] != '{' && text[i] != '}'
    ensures Closes(text, i, k, d) <==> Closes(text, j, k, d)
  {
  }

  /** And so can a group. */
  lemma GroupFirst(text: string, i: nat, j: nat, k: nat, d: nat)
    requires i < |text| && text[i] == '{' && Closes(text, i + 1, j, d + 1)
    ensures Closes(text, i, k, d) <==> j < |text| && d >= 1 && Closes(text, j + 1, k, d)
  {
  }

  /** A token that leaves the depth as it is, put before scanned code of a given size. */
  lemma TokenThen(text: string, i: nat, j: nat, rest: Items, items: Items, d: nat)
    requires Closes(text, j, j + Size(rest), d) && i + Size(items) == j + Size(rest)
    requires i < j <= |text| && TokenEnd(text, i) == Some(j) && text[i] != '{' && text[i] != '}'
    ensures Closes(text, i, i + Size(items), d)
  {
    hide Size, TokenEnd, Stand;
    TokenFirst(text, i, j, i + Size(items), d);
  }

  lemma AfterGroup(text: string, i: nat, j: nat, d: nat)
    requires i < |text| && d >= 1 && text[i] == '{' && Scan(text, i, d).Some? && Closes(text, i + 1, j, d + 1)
    ensures j < |text| && Scan(text, j + 1, d).Some?
  {
  }

  lemma GroupThen(text: string, i: nat, j: nat, body: Items, rest: Items, d: nat)
    requires i < |text| && text[i] == '{' && j == i + 1 + Size(body)
    requires Closes(text, i + 1, j, d + 1) && Closes(text, j + 1, j + 1 + Size(rest), d)
    ensures Closes(text, i, i + Size(Group(body, rest)), d)
  {
    assert i + Size(Group(body, rest)) == j + 1 + Size(rest);
    GroupFirst(text, i, j, j + 1 + Size(rest), d);
  }

  /** The scanner passes over any code and closes the brace after it. */
  lemma {:induction false} SkipItems(text: string, i: nat, items: Items, d: nat)
    requires d >= 1 && ItemsOk(items) && Stand(text, i, items)
    ensures Closes(text, i, i + Size(items), d)
    decreases items, 1
  {
    match items
    case NoItem =>
    case Char(_, _) => SkipChar(text, i, items, d);
    case Text(_, _) => SkipText(text, i, items, d);
    case LineComment(_, _) => SkipLineComment(text, i, items, d);
    case BlockComment(_, _) => SkipBlockComment(text, i, items, d);
    case Group(_, _) => SkipGroup(text, i, items, d);
  }

  lemma {:induction false} SkipChar(text: string, i: nat, items: Items, d: nat)
    requires d >= 1 && ItemsOk(items) && Stand(text, i, items) && items.Char?
    ensures Closes(text, i, i + Size(items), d)
    decreases items, 0
  {
    SkipItems(text, i + 1, items.rest, d);
    assert text[i + 1] == Head(items.rest);
    TokenThen(text, i, i + 1, items.rest, items, d);
  }

  lemma {:induction false} SkipText(text: string, i: nat, items: Items, d: nat)
    requires d >= 1 && ItemsOk(items) && Stand(text, i, items) && items.Text?
    ensures Closes(text, i, i + Size(items), d)
    decreases items, 0
  {
    var j := i + 2 + |items.text|;
    SkipItems(text, j, items.rest, d);
    assert TokenEnd(text, i) == Some(j) by { SkipString(text, i + 1, items.text); }
    TokenThen(text, i, j, items.rest, items, d);
  }

  lemma {:induction false} SkipLineComment(text: string, i: nat, items: Items, d: nat)
    requires d >= 1 && ItemsOk(items) && Stand(text, i, items) && items.LineComment?
    ensures Closes(text, i, i + Size(items), d)
    decreases items, 0
  {
    var j := i + 3 + |items.text|;
    SkipItems(text, j, items.rest, d);
    assert TokenEnd(text, i) == Some(j) by { SkipLine(text, i + 2, items.text); }
    TokenThen(text, i, j, items.rest, items, d);
  }

  lemma {:induction false} SkipBlockComment(text: string, i: nat, items: Items, d: nat)
    requires d >= 1 && ItemsOk(items) && Stand(text, i, items) && items.BlockComment?
    ensures Closes(text, i, i + Size(items), d)
    decreases items, 0
  {
    var j := i + 2 + PiecesSize(items.pieces);
    SkipItems(text, j, items.rest, d);
    assert TokenEnd(text, i) == Some(j) by { SkipBlock(text, i + 2, items.pieces, 1); }
    TokenThen(text, i, j, items.rest, items, d);
  }

  lemma {:induction false} SkipGroup(text: string, i: nat, items: Items, d: nat)
    requires d >= 1 && ItemsOk(items) && Stand(text, i, items) && items.Group?
    ensures Closes(text, i, i + Size(items), d)
    decreases items, 0
  {
    SkipItems(text, i + 1, items.body, d + 1);
    var j := i + 1 + Size(items.body);
    assert j + 1 == i + 2 + Size(items.body);
    SkipItems(text, j + 1, items.rest, d);
    GroupThen(text, i, j, items.body, items.rest, d);
  }

  /** Whatever the scanner accepts is code up to a closing brace, and it stops at that brace. */
  lemma {:induction false} ReadItems(text: string, i: nat, d: nat) returns (items: Items)
    requires i <= |text| && d >= 1 && Scan(text, i, d).Some?
    ensures ItemsOk(items) && Stand(text, i, items) && Closes(text, i, i + Size(items), d)
    decreases |text| - i, 3
  {
    if Pair(text, i, '/', '/') {
      items := ReadLineComment(text, i, d);
    } else if Pair(text, i, '/', '*') {
      items := ReadBlockComment(text, i, d);
    } else if text[i] == '"' {
      items := ReadText(text, i, d);
    } else if text[i] == '{' {
      items := ReadBraces(text, i, d);
    } else if text[i] == '}' {
      items := NoItem;
    } else {
      items := ReadChar(text, i, d);
    }
  }

  lemma {:induction false} ReadLineComment(text: string, i: nat, d: nat) returns (items: Items)
    requires i < |text| && d >= 1 && Scan(text, i, d).Some? && Pair(text, i, '/', '/')
    ensures ItemsOk(items) && Stand(text, i, items) && Closes(text, i, i + Size(items), d)
    decreases |text| - i, 1
  {
    var s := ReadLine(text, i + 2);
    var rest := ReadRest(text, i, i + 3 + |s|, d);
    items := LineComment(s, rest);
    assert i + Size(items) == i + 3 + |s| + Size(rest);
  }

  lemma {:induction false} ReadBlockComment(text: string, i: nat, d: nat) returns (items: Items)
    requires i < |text| && d >= 1 && Scan(text, i, d).Some? && Pair(text, i, '/', '*')
    ensures ItemsOk(items) && Stand(text, i, items) && Closes(text, i, i + Size(items), d)
    decreases |text| - i, 1
  {
    var ps := ReadBlock(text, i + 2, 1);
    var rest := ReadRest(text, i, i + 2 + PiecesSize(ps), d);
    items := BlockComment(ps, rest);
    assert i + Size(items) == i + 2 + PiecesSize(ps) + Size(rest);
  }

  lemma {:induction false} ReadText(text: string, i: nat, d: nat) returns (items: Items)
    requires i < |text| && d >= 1 && Scan(text, i, d).Some? && text[i] == '"'
    ensures ItemsOk(items) && Stand(text, i, items) && Closes(text, i, i + Size(items), d)
    decreases |text| - i, 1
  {
    var s := ReadString(text, i + 1);
    var rest := ReadRest(text, i, i + 2 + |s|, d);
    items := Text(s, rest);
    assert i + Size(items) == i + 2 + |s| + Size(rest);
  }

  lemma {:induction false} ReadChar(text: string, i: nat, d: nat) returns (items: Items)
    requires i < |text| && d >= 1 && Scan(text, i, d).Some? && text[i] != '"' && text[i] != '{' && text[i] != '}'
    requires !Pair(text, i, '/', '/') && !Pair(text, i, '/', '*')
    ensures ItemsOk(items) && Stand(text, i, items) && Closes(text, i, i + Size(items), d)
    decreases |text| - i, 1
  {
    var rest := ReadRest(text, i, i + 1, d);
    items := Char(text[i], rest);
    assert text[i + 1] == Head(rest);
    assert i + Size(items) == i + 1 + Size(rest);
  }

  /** The code after a token that leaves the depth as it was. */
  lemma {:induction false} ReadRest(text: string, i: nat, j: nat, d: nat) returns (rest: Items)
    requires i < j <= |text| && d >= 1 && Scan(text, i, d).Some?
    requires TokenEnd(text, i) == Some(j) && text[i] != '{' && text[i] != '}'
    ensures ItemsOk(rest) && Stand(text, j, rest) && Closes(text, i, j + Size(rest), d)
    decreases |text| - i, 0
  {
    rest := ReadItems(text, j, d);
    TokenFirst(text, i, j, j + Size(rest), d);
  }

  /** The code of a group and the code after it. */
  lemma {:induction false} ReadGroup(text: string, i: nat, d: nat) returns (body: Items, rest: Items)
    requires i < |text| && d >= 1 && Scan(text, i, d).Some? && text[i] == '{'
    ensures ItemsOk(body) && Stand(text, i + 1, body)
    ensures ItemsOk(rest) && Stand(text, i + 2 + Size(body), rest)
    ensures Closes(text, i, i + 2 + Size(body) + Size(rest), d)
    decreases |text| - i, 1
  {
    hide ItemsOk, Size, Stand;
    body := ReadItems(text, i + 1, d + 1);
    var j := i + 1 + Size(body);
    AfterGroup(text, i, j, d);
    rest := ReadItems(text, j + 1, d);
    assert j + 1 == i + 2 + Size(body) && j + 1 + Size(rest) == i + 2 + Size(body) + Size(rest);
    GroupFirst(text, i, j, j + 1 + Size(rest), d);
  }

  lemma {:induction false} GroupStandsRead(text: string, i: nat, body: Items, rest: Items)
    requires i < |text| && text[i] == '{' && ItemsOk(body) && Stand(text, i + 1, body)
    requires ItemsOk(rest) && Stand(text, i + 2 + Size(body), rest)
    ensures ItemsOk(Group(body, rest)) && Stand(text, i, Group(body, rest))
    ensures Size(Group(body, rest)) == 2 + Size(body) + Size(rest)
  {
  }

  lemma {:induction false} ReadBraces(text: string, i: nat, d: nat) returns (items: Items)
    requires i < |text| && d >= 1 && Scan(text, i, d).Some? && text[i] == '{'
    ensures ItemsOk(items) && Stand(text, i, items) && Closes(text, i, i + Size(items), d)
    decreases |text| - i, 2
  {
    hide *;
    var body, rest := ReadGroup(text, i, d);
    GroupStandsRead(text, i, body, rest);
    items := Group(body, rest);
  }

  // ---------------------------------------------------------------------
  // Main results
  // ---------------------------------------------------------------------

  /** The text from `i` to `n` is code, and a brace closes it at `n`. */
  ghost predicate CodeUpTo(text: string, i: nat, n: nat) {
    i <= n < |text| && text[n] == '}' && exists items :: ItemsOk(items) && Render(items) == text[i..n]
  }

  lemma ScannedIsCode(text: string, i: nat, n: nat)
    requires i <= |text| && Scan(text, i, 1) == Some(n)
    ensures CodeUpTo(text, i, n)
  {
    var items := ReadItems(text, i, 1);
    SizeIsLength(items);
    StandWhereRendered(text, i, items);
    AtSplit(text, i, Render(items), ['}']);
    assert Render(items) == text[i..n];
  }

  lemma CodeIsScanned(text: string, i: nat, n: nat)
    requires CodeUpTo(text, i, n)
    ensures Scan(text, i, 1) == Some(n)
  {
    var items :| ItemsOk(items) && Render(items) == text[i..n];
    AtChar(text, n, '}');
    AtSplit(text, i, Render(items), ['}']);
    SizeIsLength(items);
    StandWhereRendered(text, i, items);
    SkipItems(text, i, items, 1);
  }

  /** From `i` the scanner stops at `n` exactly when the text between is code and a brace closes it there. */
  lemma ScannerReadsExactlyCode(text: string, i: nat, n: nat)
    requires i <= |text|
    ensures Scan(text, i, 1) == Some(n) <==> CodeUpTo(text, i, n)
  {
    if Scan(text, i, 1) == Some(n) {
      ScannedIsCode(text, i, n);
    }
    if CodeUpTo(text, i, n) {
      CodeIsScanned(text, i, n);
    }
  }

  lemma {:induction false} FindsFirst(text: string, i: nat, n: nat, c: char)
    requires i <= n < |text| && text[n] == c && c !in text[i..n]
    ensures Find(text, i, c) == Some(n)
    decreases n - i
  {
    if i < n {
      assert text[i] == text[i..n][0] && text[i + 1..n] == text[i..n][1..];
      FindsFirst(text, i + 1, n, c);
    }
  }

  /** The function's header runs from `from` up to its opening brace. */
  predicate HeaderAt(text: string, from: nat, open: nat) {
    from <= open < |text| && text[open] == '{' && '{' !in text[from..open]
  }

  /** A function's body is found whole, whatever stands before and after the function. */
  lemma FindsTheBody(text: string, from: nat, open: nat, items: Items)
    requires HeaderAt(text, from, open) && ItemsOk(items) && At(text, open + 1, Closed(items))
    ensures FunctionBody(text, from) == Some(Render(items))
  {
    FindsFirst(text, from, open, '{');
    SizeIsLength(items);
    StandWhereRendered(text, open + 1, items);
    SkipItems(text, open + 1, items, 1);
    AtSplit(text, open + 1, Render(items), ['}']);
    assert text[open + 1..open + 1 + |Render(items)|] == Render(items);
  }

  /**
   Character literals are not understood: a quoted closing brace ends the body
   early, whatever the rest of the function is.
   */
  lemma QuotedBraceEndsTheBody(text: string, from: nat, open: nat, items: Items)
    requires HeaderAt(text, from, open) && ItemsOk(Append(items, '\''))
    requires At(text, open + 1, Render(items) + ['\'', '}', '\''])
    ensures FunctionBody(text, from) == Some(Render(items) + ['\''])
  {
    RenderAppend(items, '\'');
    assert Render(items) + ['\'', '}', '\''] == Closed(Append(items, '\'')) + ['\''];
    AtSplit(text, open + 1, Closed(Append(items, '\'')), ['\'']);
    FindsTheBody(text, from, open, Append(items, '\''));
  }

  function Append(items: Items, c: char): Items {
    match items
    case NoItem => Char(c, NoItem)
    case Char(x, rest) => Char(x, Append(rest, c))
    case Text(s, rest) => Text(s, Append(rest, c))
    case LineComment(s, rest) => LineComment(s, Append(rest, c))
    case BlockComment(ps, rest) => BlockComment(ps, Append(rest, c))
    case Group(body, rest) => Group(body, Append(rest, c))
  }

  lemma {:induction false} RenderAppend(items: Items, c: char)
    ensures Render(Append(items, c)) == Render(items) + [c]
    decreases items
  {
    match items
    case NoItem =>
    case Char(_, rest) => RenderAppend(rest, c);
    case Text(_, rest) => RenderAppend(rest, c);
    case LineComment(_, rest) => RenderAppend(rest, c);
    case BlockComment(_, rest) => RenderAppend(rest, c);
    case Group(_, rest) => RenderAppend(rest, c);
  }
}
