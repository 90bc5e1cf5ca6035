/** How deep a JSON text nests, by a scan of its bytes (RFC 8259). */
module JsonDepth {
  import opened Bytes

  const QUOTE: byte := 0x22
  const BACKSLASH: byte := 0x5C

  predicate Opens(b: byte) {
    b == 0x5B || b == 0x7B
  }

  predicate Closes(b: byte) {
    b == 0x5D || b == 0x7D
  }

  /** A part of a string: a byte as it is, or a backslash and the byte it takes with it. */
  datatype Piece = Unescaped(b: byte) | Escape(b: byte)

  /**
   * A text as its tokens: what is neither string nor bracket (literals, numbers, separators,
   * white space), strings, and arrays and objects holding tokens. Every rendering of a JSON value
   * is such a sequence of tokens.
   */
  datatype Token = Filler(bytes: seq<byte>) | Quoted(pieces: seq<Piece>) | Held(braces: bool, tokens: Tokens)

  datatype Tokens = NoMore | Then(token: Token, rest: Tokens)

  predicate Proper(t: Token)
    decreases t
  {
    match t
    case Filler(bytes) => forall i :: 0 <= i < |bytes| ==> bytes[i] !in {0x22, 0x5B, 0x5D, 0x7B, 0x7D}
    case Quoted(pieces) => forall i :: 0 <= i < |pieces| ==> pieces[i].Escape? || pieces[i].b !in {0x22, 0x5C}
    case Held(_, tokens) => AllProper(tokens)
  }

  predicate AllProper(ts: Tokens)
    decreases ts
  {
    ts.NoMore? || (Proper(ts.token) && AllProper(ts.rest))
  }

  function RenderPieces(pieces: seq<Piece>): seq<byte> {
    if pieces == [] then []
    else (if pieces[0].Escape? then [0x5C, pieces[0].b] else [pieces[0].b]) + RenderPieces(pieces[1..])
  }

  function Render(t: Token): seq<byte>
    decreases t
  {
    match t
    case Filler(bytes) => bytes
    case Quoted(pieces) => [0x22] + (RenderPieces(pieces) + [0x22])
    case Held(braces, tokens) => [if braces then 0x7B else 0x5B] + (RenderAll(tokens) + [if braces then 0x7D else 0x5D])
  }

  function RenderAll(ts: Tokens): seq<byte>
    decreases ts
  {
    if ts.NoMore? then [] else Render(ts.token) + RenderAll(ts.rest)
  }

  function Max(a: nat, b: nat): nat {
    if a >= b then a else b
  }

  /** How deep arrays and objects nest: the text's own value is at level 1 if it is one. */
  function Depth(t: Token): nat
    decreases t
  {
    if t.Held? then 1 + Deepest(t.tokens) else 0
  }

  function Deepest(ts: Tokens): nat
    decreases ts
  {
    if ts.NoMore? then 0 else Max(Depth(ts.token), Deepest(ts.rest))
  }

  datatype Scan = Scan(depth: nat, deepest: nat, inString: bool, escaped: bool)

  function Step(s: Scan, b: byte): Scan {
    if s.inString then
      if s.escaped then s.(escaped := false)
      else if b == BACKSLASH then s.(escaped := true)
      else if b == QUOTE then s.(inString := false)
      else s
    else if b == QUOTE then s.(inString := true)
    else if Opens(b) then s.(depth := s.depth + 1, deepest := Max(s.deepest, s.depth + 1))
    else if Closes(b) then s.(depth := if s.depth > 0 then s.depth - 1 else 0)
    else s
  }

  function After(s: Scan, data: seq<byte>): Scan
    decreases |data|
  {
    if data == [] then s else After(Step(s, data[0]), data[1..])
  }

  const START: Scan := Scan(0, 0, false, false)

  lemma {:induction false} AfterBoth(s: Scan, a: seq<byte>, b: seq<byte>)
    ensures After(s, a + b) == After(After(s, a), b)
    decreases |a|
  {
    if a == [] {
      assert a + b == b;
    } else {
      assert (a + b)[1..] == a[1..] + b;
      AfterBoth(Step(s, a[0]), a[1..], b);
    }
  }

  lemma {:induction false} AfterFiller(s: Scan, bytes: seq<byte>)
    requires Proper(Filler(bytes)) && !s.inString
    ensures After(s, bytes) == s
    decreases |bytes|
  {
    if bytes != [] { AfterFiller(s, bytes[1..]); }
  }

  lemma {:induction false} AfterPieces(s: Scan, pieces: seq<Piece>)
    requires Proper(Quoted(pieces)) && s.inString && !s.escaped
    ensures After(s, RenderPieces(pieces)) == s
    decreases |pieces|
  {
    if pieces != [] {
      var first := if pieces[0].Escape? then [BACKSLASH, pieces[0].b] else [pieces[0].b];
      AfterBoth(s, first, RenderPieces(pieces[1..]));
      OnePiece(s, pieces[0]);
      AfterPieces(s, pieces[1..]);
    }
  }

  lemma OnePiece(s: Scan, piece: Piece)
    requires s.inString && !s.escaped && (piece.Escape? || piece.b !in {QUOTE, BACKSLASH})
    ensures After(s, if piece.Escape? then [BACKSLASH, piece.b] else [piece.b]) == s
  {
    if piece.Escape? {
      assert [BACKSLASH, piece.b] == [BACKSLASH] + [piece.b];
      AfterBoth(s, [BACKSLASH], [piece.b]);
    }
  }

  /** Between two bytes that stand around what leaves the scan as it is. */
  lemma {:induction false} AfterAround(s: Scan, first: byte, middle: seq<byte>, last: byte, between: Scan)
    requires After(Step(s, first), middle) == between
    ensures After(s, [first] + (middle + [last])) == Step(between, last)
  {
    AfterBoth(s, [first], middle + [last]);
    AfterBoth(Step(s, first), middle, [last]);
  }

  lemma {:induction false} AfterToken(s: Scan, t: Token)
    requires Proper(t) && !s.inString && !s.escaped && s.depth <= s.deepest
    ensures After(s, Render(t)) == s.(deepest := Max(s.deepest, s.depth + Depth(t)))
    decreases t
  {
    match t {
      case Filler(bytes) => AfterFiller(s, bytes);
      case Quoted(pieces) =>
        AfterPieces(s.(inString := true), pieces);
        AfterAround(s, QUOTE, RenderPieces(pieces), QUOTE, s.(inString := true));
      case Held(braces, tokens) =>
        var inside := s.(depth := s.depth + 1, deepest := Max(s.deepest, s.depth + 1));
        AfterTokens(inside, tokens);
        AfterAround(s, if braces then 0x7B else 0x5B, RenderAll(tokens), if braces then 0x7D else 0x5D,
                    inside.(deepest := Max(inside.deepest, inside.depth + Deepest(tokens))));
    }
  }

  lemma {:induction false} AfterTokens(s: Scan, ts: Tokens)
    requires AllProper(ts) && !s.inString && !s.escaped && s.depth <= s.deepest
    ensures After(s, RenderAll(ts)) == s.(deepest := Max(s.deepest, s.depth + Deepest(ts)))
    decreases ts
  {
    if ts.Then? {
      AfterBoth(s, Render(ts.token), RenderAll(ts.rest));
      AfterToken(s, ts.token);
      AfterTokens(s.(deepest := Max(s.deepest, s.depth + Depth(ts.token))), ts.rest);
    }
  }

  /** Scanned, a text nests as deep as its arrays and objects do; what strings hold never counts. */
  lemma {:induction false} ScanIsDepth(ts: Tokens)
    requires AllProper(ts)
    ensures After(START, RenderAll(ts)).deepest == Deepest(ts)
  {
    AfterTokens(START, ts);
  }

  method JsonNestingDepth(data: seq<byte>) returns (deepest: nat)
    ensures deepest == After(START, data).deepest
  {
    var depth: nat := 0;
    deepest := 0;
    var inString, escaped := false, false;
    for i := 0 to |data|
      invariant After(Scan(depth, deepest, inString, escaped), data[i..]) == After(START, data)
    {
      var b := data[i];
      assert data[i..][1..] == data[i + 1..];
      if inString {
        if escaped {
          escaped := false;
        } else if b == BACKSLASH {
          escaped := true;
        } else if b == QUOTE {
          inString := false;
        }
        continue;
      }
      if b == QUOTE {
        inString := true;
      } else if Opens(b) {
        depth := depth + 1;
        deepest := Max(deepest, depth);
      } else if Closes(b) {
        depth := if depth > 0 then depth - 1 else 0;
      }
    }
  }
}
