/** The comma-separated option lists of the vendored test framework
    (src/Utils/doctest.h:6430-6473). */
module Tokenizer {

  /** The token under construction, the backslash flag and the tokens so far. */
  datatype Scanner = Scanner(current: string, seenBackslash: bool, res: seq<string>)

  /** Empty tokens are dropped. */
  function Flush(s: Scanner): Scanner {
    s.(current := "", res := if s.current == "" then s.res else s.res + [s.current])
  }

  /** One character. */
  function Consume(s: Scanner, c: char): Scanner {
    if s.seenBackslash && (c == ',' || c == '\\') then
      s.(current := s.current + [c], seenBackslash := false)
    else
      var t := if s.seenBackslash then s.(current := s.current + "\\", seenBackslash := false)
               else s;
      if c == '\\' then t.(seenBackslash := true)
      else if c == ',' then Flush(t)
      else t.(current := t.current + [c])
  }

  function ConsumeAll(s: Scanner, text: string): Scanner
    decreases |text|
  {
    if text == "" then s else ConsumeAll(Consume(s, text[0]), text[1..])
  }

  /** A backslash at the end stands for itself. */
  function Finish(s: Scanner): seq<string> {
    Flush(if s.seenBackslash then s.(current := s.current + "\\") else s).res
  }

  function Tokens(text: string): seq<string> {
    Finish(ConsumeAll(Scanner("", false, []), text))
  }

  /** The loop of parseCommaSepArgs, appending to the tokens that are there. */
  method ParseCommaSepArgs(text: string, before: seq<string>) returns (res: seq<string>)
    ensures res == before + Tokens(text)
  {
    var current, seenBackslash := "", false;
    res := before;
    ghost var all := ConsumeAll(Scanner("", false, before), text);
    for i := 0 to |text|
      invariant all == ConsumeAll(Scanner(current, seenBackslash, res), text[i..])
    {
      var c := text[i];
      assert text[i..][1..] == text[i + 1..];
      if seenBackslash {
        seenBackslash := false;
        if c == ',' || c == '\\' {
          current := current + [c];
          continue;
        }
        current := current + "\\";
      }
      if c == '\\' {
        seenBackslash := true;
      } else if c == ',' {
        if current != "" { res := res + [current]; }
        current := "";
      } else {
        current := current + [c];
      }
    }
    if seenBackslash { current := current + "\\"; }
    if current != "" { res := res + [current]; }
    ghost var s := Scanner("", false, []);
    Prefixed(s, text, before);
    assert s.(res := before + s.res) == Scanner("", false, before);
    FinishPrefixed(ConsumeAll(s, text), before);
  }

  /** Earlier tokens are carried along in front. */
  lemma {:induction false} Prefixed(s: Scanner, text: string, before: seq<string>)
    ensures ConsumeAll(s.(res := before + s.res), text)
         == var t := ConsumeAll(s, text); t.(res := before + t.res)
    decreases |text|
  {
    if text != "" {
      var t := Consume(s, text[0]);
      assert Consume(s.(res := before + s.res), text[0]) == t.(res := before + t.res);
      Prefixed(t, text[1..], before);
    }
  }

  // ---------------------------------------------------------------- escaping

  function EscapeChar(c: char): string {
    if c == ',' || c == '\\' then ['\\', c] else [c]
  }

  function Escape(token: string): string {
    if token == "" then "" else EscapeChar(token[0]) + Escape(token[1..])
  }

  function Join(tokens: seq<string>): string {
    if tokens == [] then ""
    else if |tokens| == 1 then Escape(tokens[0])
    else Escape(tokens[0]) + "," + Join(tokens[1..])
  }

  lemma {:induction false} ConsumeConcat(s: Scanner, a: string, b: string)
    ensures ConsumeAll(s, a + b) == ConsumeAll(ConsumeAll(s, a), b)
    decreases |a|
  {
    if a == "" {
      assert a + b == b;
    } else {
      assert (a + b)[1..] == a[1..] + b;
      ConsumeConcat(Consume(s, a[0]), a[1..], b);
    }
  }

  /** An escaped token is read back into the current token. */
  lemma {:induction false} EscapedIsRead(s: Scanner, token: string)
    requires !s.seenBackslash
    ensures ConsumeAll(s, Escape(token)) == s.(current := s.current + token)
    decreases |token|
  {
    if token == "" {
      assert s.current + token == s.current;
    } else {
      var e := EscapeChar(token[0]);
      var t := s.(current := s.current + [token[0]]);
      ConsumeConcat(s, e, Escape(token[1..]));
      if |e| == 2 {
        assert e[1..] == [token[0]] && e[1..][1..] == "";
        var escaped := Consume(s, '\\');
        assert Consume(escaped, token[0]) == t;
        assert ConsumeAll(escaped, e[1..]) == ConsumeAll(t, "");
      } else {
        assert e[1..] == "";
      }
      assert ConsumeAll(s, e) == t;
      EscapedIsRead(t, token[1..]);
      assert t.current + token[1..] == s.current + token;
    }
  }

  function NonEmpty(tokens: seq<string>): seq<string> {
    if tokens == [] then []
    else (if tokens[0] == "" then [] else [tokens[0]]) + NonEmpty(tokens[1..])
  }

  /** Joining and tokenizing keeps every token but the empty ones, for any list. */
  lemma {:induction false} JoinedTokens(tokens: seq<string>)
    ensures Tokens(Join(tokens)) == NonEmpty(tokens)
    decreases |tokens|
  {
    if tokens != [] {
      var s := Scanner("", false, []);
      var t := s.(current := tokens[0]);
      assert "" + tokens[0] == tokens[0];
      EscapedIsRead(s, tokens[0]);
      if |tokens| == 1 {
        assert tokens[1..] == [];
      } else {
        var rest := Join(tokens[1..]);
        assert Join(tokens) == Escape(tokens[0]) + ("," + rest);
        ConsumeConcat(s, Escape(tokens[0]), "," + rest);
        assert ("," + rest)[1..] == rest;
        var head := if tokens[0] == "" then [] else [tokens[0]];
        assert Consume(t, ',') == s.(res := head + s.res);
        Prefixed(s, rest, head);
        JoinedTokens(tokens[1..]);
        FinishPrefixed(ConsumeAll(s, rest), head);
      }
    }
  }

  lemma FinishPrefixed(s: Scanner, before: seq<string>)
    ensures Finish(s.(res := before + s.res)) == before + Finish(s)
  {
  }

  lemma {:induction false} NothingDropped(tokens: seq<string>)
    ensures |NonEmpty(tokens)| <= |tokens|
    ensures NonEmpty(tokens) == tokens <==> "" !in tokens
    decreases |tokens|
  {
    if tokens != [] {
      NothingDropped(tokens[1..]);
      assert tokens == [tokens[0]] + tokens[1..];
      if tokens[0] == "" { assert |NonEmpty(tokens)| < |tokens|; }
    }
  }

  /** The list comes back exactly when no token is empty. */
  lemma RoundTrip(tokens: seq<string>)
    ensures Tokens(Join(tokens)) == tokens <==> "" !in tokens
  {
    JoinedTokens(tokens);
    NothingDropped(tokens);
  }

  // ---------------------------------------------------------------- any text

  /** What a text is made of. A backslash escapes a comma or a backslash; in front of anything
      else, and at the end, it stands for itself. */
  datatype Piece = Plain(c: char) | Escaped(c: char) | Loose(c: char) | Comma | Last

  predicate IsSpecial(c: char) { c == ',' || c == '\\' }

  predicate Spelled(pieces: seq<Piece>) {
    forall i :: 0 <= i < |pieces| ==>
      match pieces[i]
      case Plain(c) => !IsSpecial(c)
      case Escaped(c) => IsSpecial(c)
      case Loose(c) => !IsSpecial(c)
      case Comma => true
      case Last => i == |pieces| - 1
  }

  function PieceText(p: Piece): string {
    match p
    case Plain(c) => [c]
    case Escaped(c) => ['\\', c]
    case Loose(c) => ['\\', c]
    case Comma => ","
    case Last => "\\"
  }

  function Text(pieces: seq<Piece>): string {
    if pieces == [] then "" else PieceText(pieces[0]) + Text(pieces[1..])
  }

  /** The tokens between the commas, the first of which has begun with `current`. */
  function Meaning(pieces: seq<Piece>, current: string): seq<string>
    decreases |pieces|
  {
    if pieces == [] then NonEmpty([current])
    else match pieces[0]
      case Comma => NonEmpty([current]) + Meaning(pieces[1..], "")
      case Escaped(c) => Meaning(pieces[1..], current + [c])
      case p => Meaning(pieces[1..], current + PieceText(p))
  }

  /** Every text is made of such pieces. */
  lemma {:induction false} Spell(text: string) returns (pieces: seq<Piece>)
    ensures Spelled(pieces) && Text(pieces) == text
    decreases |text|
  {
    if text == "" { return []; }
    var p := if text[0] == ',' then Comma
             else if text[0] != '\\' then Plain(text[0])
             else if |text| == 1 then Last
             else if IsSpecial(text[1]) then Escaped(text[1])
             else Loose(text[1]);
    var rest := Spell(text[|PieceText(p)|..]);
    pieces := [p] + rest;
    assert pieces[1..] == rest;
  }

  lemma OneToken(token: string)
    ensures NonEmpty([token]) == if token == "" then [] else [token]
  {
    assert [token][1..] == [];
  }

  lemma {:induction false} PiecesAreRead(s: Scanner, pieces: seq<Piece>)
    requires Spelled(pieces) && !s.seenBackslash
    ensures Finish(ConsumeAll(s, Text(pieces))) == s.res + Meaning(pieces, s.current)
    decreases |pieces|
  {
    OneToken(s.current);
    if pieces != [] {
      var p, rest := pieces[0], pieces[1..];
      assert forall i :: 0 <= i < |rest| ==> rest[i] == pieces[i + 1];
      PieceIsRead(s, p);
      ConsumeConcat(s, PieceText(p), Text(rest));
      if p == Last {
        var token := s.current + "\\";
        assert rest == [] && Text(rest) == "" && Meaning(pieces, s.current) == Meaning([], token);
        OneToken(token);
        assert ConsumeAll(s, Text(pieces)) == s.(seenBackslash := true);
      } else {
        PiecesAreRead(ConsumeAll(s, PieceText(p)), rest);
      }
    }
  }

  lemma PieceIsRead(s: Scanner, p: Piece)
    requires !s.seenBackslash && Spelled([p])
    ensures ConsumeAll(s, PieceText(p)) ==
      match p
      case Comma => s.(current := "", res := s.res + NonEmpty([s.current]))
      case Last => s.(seenBackslash := true)
      case Escaped(c) => s.(current := s.current + [c])
      case _ => s.(current := s.current + PieceText(p))
  {
    var text := PieceText(p);
    assert [p][0] == p;
    if |text| == 2 {
      assert text[1..] == [text[1]] && text[1..][1..] == "";
      assert ConsumeAll(s, text) == ConsumeAll(Consume(s, '\\'), text[1..]);
      assert s.current + "\\" + [text[1]] == s.current + text;
    } else {
      assert text[1..] == "";
    }
  }

  /** The tokens of a text are what its pieces mean, for every text. */
  lemma TextMeaning(pieces: seq<Piece>)
    requires Spelled(pieces)
    ensures Tokens(Text(pieces)) == Meaning(pieces, "")
  {
    PiecesAreRead(Scanner("", false, []), pieces);
  }
}
