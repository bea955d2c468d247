/**
 The text form of an actor key, a list of segments: segments are joined by slashes, slashes and backslashes inside them
 escaped, an empty segment written as a marker and the empty list as a single slash.
 */
module ActorKeys {
  // -- printing

  /** Every occurrence of one character replaced. */
  function ReplaceAll(s: string, c: char, text: string): string
  {
    if s == [] then [] else (if s[0] == c then text else [s[0]]) + ReplaceAll(s[1..], c, text)
  }

  function EscapeChar(c: char): string
  {
    if c == '\\' then ['\\', '\\'] else if c == '/' then ['\\', '/'] else [c]
  }

  function Escape(s: string): string
  {
    if s == [] then [] else EscapeChar(s[0]) + Escape(s[1..])
  }

  function PrintSegment(segment: string): string
  {
    if segment == [] then ['\\', '0'] else Escape(segment)
  }

  function Join(parts: seq<string>): string
  {
    if parts == [] then []
    else if |parts| == 1 then parts[0]
    else parts[0] + (['/'] + Join(parts[1..]))
  }

  function PrintAll(key: seq<string>): (parts: seq<string>)
    ensures |parts| == |key| && forall i :: 0 <= i < |key| ==> parts[i] == PrintSegment(key[i])
  {
    seq(|key|, i requires 0 <= i < |key| => PrintSegment(key[i]))
  }

  function Serialize(key: seq<string>): string { if key == [] then ['/'] else Join(PrintAll(key)) }

  lemma {:induction false} ReplaceJoin(a: string, b: string, c: char, text: string)
    ensures ReplaceAll(a + b, c, text) == ReplaceAll(a, c, text) + ReplaceAll(b, c, text)
  {
    if a == [] {
      assert a + b == b;
    } else {
      assert (a + b)[1..] == a[1..] + b;
      ReplaceJoin(a[1..], b, c, text);
    }
  }

  /** The two passes, backslashes first, escape character by character; neither sees what the other inserted as
      something to escape again. */
  lemma {:induction false} TwoPassesEscape(s: string)
    ensures ReplaceAll(ReplaceAll(s, '\\', ['\\', '\\']), '/', ['\\', '/']) == Escape(s)
  {
    if s != [] {
      var first := if s[0] == '\\' then ['\\', '\\'] else [s[0]];
      var rest := ReplaceAll(s[1..], '\\', ['\\', '\\']);
      TwoPassesEscape(s[1..]);
      ReplaceJoin(first, rest, '/', ['\\', '/']);
      FirstPiece(s[0]);
    }
  }

  lemma FirstPiece(c: char)
    ensures ReplaceAll(if c == '\\' then ['\\', '\\'] else [c], '/', ['\\', '/']) == EscapeChar(c)
  {
    var piece := if c == '\\' then ['\\', '\\'] else [c];
    assert ReplaceAll([], '/', ['\\', '/']) == [];
    assert piece[1..] == if c == '\\' then ['\\'] else [];
    if c == '\\' {
      assert ['\\'][1..] == [];
      assert ReplaceAll(['\\'], '/', ['\\', '/']) == ['\\'];
    }
  }

  method SerializeActorKey(key: seq<string>) returns (text: string)
    ensures text == Serialize(key)
  {
    if |key| == 0 { return "/"; }
    var parts := [];
    for index := 0 to |key|
      invariant parts == PrintAll(key)[..index]
    {
      var part := key[index];
      if part == [] {
        parts := parts + [['\\', '0']];
      } else {
        TwoPassesEscape(part);
        part := ReplaceAll(part, '\\', ['\\', '\\']);
        parts := parts + [ReplaceAll(part, '/', ['\\', '/'])];
      }
    }
    assert parts == PrintAll(key);
    text := Join(parts);
  }

  // -- parsing

  datatype Parser = Parser(parts: seq<string>, current: string, escaping: bool, emptyMarker: bool)

  function Feed(p: Parser, c: char): Parser
  {
    if p.escaping then
      if c == '0' then p.(emptyMarker := true, escaping := false)
      else p.(current := p.current + [c], escaping := false)
    else if c == '\\' then p.(escaping := true)
    else if c == '/' then
      Parser(p.parts + [if p.emptyMarker then [] else p.current], [], false, false)
    else p.(current := p.current + [c])
  }

  function FeedAll(p: Parser, s: string): Parser
    decreases s
  {
    if s == [] then p else FeedAll(Feed(p, s[0]), s[1..])
  }

  function Finish(p: Parser): seq<string>
  {
    if p.escaping then p.parts + [p.current + ['\\']]
    else if p.emptyMarker then p.parts + [[]]
    else if |p.current| > 0 then p.parts + [p.current]
    else p.parts
  }

  function Deserialize(text: string): seq<string>
  {
    if text == [] || text == ['/'] then [] else Finish(FeedAll(Parser([], [], false, false), text))
  }

  method DeserializeActorKey(text: string) returns (key: seq<string>)
    ensures key == Deserialize(text)
  {
    if text == "" || text == "/" { return []; }
    var parts, current, escaping, emptyMarker := [], [], false, false;
    assert text[0..] == text;
    for i := 0 to |text|
      invariant FeedAll(Parser(parts, current, escaping, emptyMarker), text[i..]) == FeedAll(Parser([], [], false, false), text)
    {
      var c := text[i];
      assert text[i..][0] == c && text[i..][1..] == text[i + 1..];
      if escaping {
        if c == '0' {
          emptyMarker := true;
        } else {
          current := current + [c];
        }
        escaping := false;
      } else if c == '\\' {
        escaping := true;
      } else if c == '/' {
        if emptyMarker {
          parts, emptyMarker := parts + [[]], false;
        } else {
          parts := parts + [current];
        }
        current := [];
      } else {
        current := current + [c];
      }
    }
    assert text[|text|..] == [];
    if escaping {
      parts := parts + [current + ['\\']];
    } else if emptyMarker {
      parts := parts + [[]];
    } else if |current| > 0 {
      parts := parts + [current];
    }
    key := parts;
  }

  // -- round trip

  lemma {:induction false} FeedJoin(p: Parser, a: string, b: string)
    ensures FeedAll(p, a + b) == FeedAll(FeedAll(p, a), b)
    decreases a
  {
    if a == [] {
      assert a + b == b;
    } else {
      assert (a + b)[1..] == a[1..] + b;
      FeedJoin(Feed(p, a[0]), a[1..], b);
    }
  }

  lemma TwoChars(p: Parser, a: char, b: char)
    ensures FeedAll(p, [a, b]) == Feed(Feed(p, a), b)
  {
    assert [a, b][1..] == [b] && [b][1..] == [];
    assert FeedAll(Feed(p, a), [b]) == FeedAll(Feed(Feed(p, a), b), []);
  }

  lemma OneChar(p: Parser, c: char)
    requires !p.escaping
    ensures FeedAll(p, EscapeChar(c)) == p.(current := p.current + [c])
  {
    var e := EscapeChar(c);
    if |e| == 2 { TwoChars(p, e[0], e[1]); } else { assert e[1..] == []; }
  }

  /** An escaped segment adds exactly itself to the segment being read. */
  lemma {:induction false} EscapedText(p: Parser, s: string)
    requires !p.escaping
    ensures FeedAll(p, Escape(s)) == p.(current := p.current + s)
    decreases s
  {
    if s == [] {
      assert p.current + s == p.current;
    } else {
      FeedJoin(p, EscapeChar(s[0]), Escape(s[1..]));
      OneChar(p, s[0]);
      EscapedText(p.(current := p.current + [s[0]]), s[1..]);
      assert p.current + [s[0]] + s[1..] == p.current + s;
    }
  }

  lemma SegmentText(parts: seq<string>, segment: string)
    ensures FeedAll(Parser(parts, [], false, false), PrintSegment(segment)) == Parser(parts, segment, false, segment == [])
  {
    var p := Parser(parts, [], false, false);
    if segment == [] {
      TwoChars(p, '\\', '0');
      assert Feed(Feed(p, '\\'), '0') == Parser(parts, [], false, true);
    } else {
      EscapedText(p, segment);
      assert [] + segment == segment;
    }
  }

  lemma AfterSlash(parts: seq<string>, segment: string, rest: string)
    ensures FeedAll(Parser(parts, segment, false, segment == []), ['/'] + rest)
         == FeedAll(Parser(parts + [segment], [], false, false), rest)
  {
    var tail := ['/'] + rest;
    assert tail[0] == '/' && tail[1..] == rest;
    assert Feed(Parser(parts, segment, false, segment == []), '/') == Parser(parts + [segment], [], false, false);
  }

  lemma {:induction false} JoinedText(parts: seq<string>, key: seq<string>)
    requires key != []
    ensures Finish(FeedAll(Parser(parts, [], false, false), Join(PrintAll(key)))) == parts + key
    decreases |key|
  {
    if |key| == 1 {
      LastSegment(parts, key);
    } else {
      FirstSegment(parts, key);
      JoinedText(parts + [key[0]], key[1..]);
      FirstAndRest(parts, key);
    }
  }

  lemma FirstAndRest(parts: seq<string>, key: seq<string>)
    requires key != []
    ensures parts + [key[0]] + key[1..] == parts + key
  {
  }

  lemma LastSegment(parts: seq<string>, key: seq<string>)
    requires |key| == 1
    ensures Finish(FeedAll(Parser(parts, [], false, false), Join(PrintAll(key)))) == parts + key
  {
    SegmentText(parts, key[0]);
    assert Join(PrintAll(key)) == PrintSegment(key[0]);
    assert key == [key[0]];
  }

  lemma FirstSegment(parts: seq<string>, key: seq<string>)
    requires |key| > 1
    ensures FeedAll(Parser(parts, [], false, false), Join(PrintAll(key)))
         == FeedAll(Parser(parts + [key[0]], [], false, false), Join(PrintAll(key[1..])))
  {
    var rest := Join(PrintAll(key[1..]));
    assert PrintAll(key)[1..] == PrintAll(key[1..]);
    FeedJoin(Parser(parts, [], false, false), PrintSegment(key[0]), ['/'] + rest);
    SegmentText(parts, key[0]);
    AfterSlash(parts, key[0], rest);
  }

  /** No key but the empty one prints as nothing or as a single slash. */
  lemma NotTheEmptyKey(key: seq<string>)
    requires key != []
    ensures Serialize(key) != [] && Serialize(key) != ['/']
  {
    SegmentStart(key[0]);
    var first := PrintAll(key)[0];
    assert Serialize(key)[0] == first[0];
  }

  lemma SegmentStart(segment: string)
    ensures PrintSegment(segment) != [] && PrintSegment(segment)[0] != '/'
  {
    if segment != [] { assert Escape(segment)[0] == EscapeChar(segment[0])[0]; }
  }

  /** Every key, empty segments and the empty key included, is read back from its text. */
  lemma KeyRoundTrip(key: seq<string>)
    ensures Deserialize(Serialize(key)) == key
  {
    if key != [] {
      NotTheEmptyKey(key);
      JoinedText([], key);
      assert [] + key == key;
    }
  }

  /** A backslash that escapes nothing is kept as part of the last segment. */
  lemma DanglingBackslash(segment: string)
    requires segment != []
    ensures Deserialize(PrintSegment(segment) + ['\\']) == [segment + ['\\']]
  {
    var p := Parser([], [], false, false);
    SegmentStart(segment);
    SegmentText([], segment);
    FeedJoin(p, PrintSegment(segment), ['\\']);
    assert ['\\'][1..] == [];
    assert [] + [segment + ['\\']] == [segment + ['\\']];
  }

  /** Distinct keys have distinct texts. */
  lemma SerializeIsInjective(a: seq<string>, b: seq<string>)
    requires Serialize(a) == Serialize(b)
    ensures a == b
  {
    KeyRoundTrip(a);
    KeyRoundTrip(b);
  }
}
