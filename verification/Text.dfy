/** The string operations the source takes from its standard library, on ASCII text. */
module Text {
  import opened Wrappers

  predicate IsSpace(c: char) {
    c == ' ' || c == '\t' || c == '\n' || c == '\U{0B}' || c == '\U{0C}' || c == '\r'
  }

  /** Two texts joined by a character can be told apart exactly if neither contains it. */
  lemma JoinUniqueIff(a: string, separator: char, b: string)
    ensures (forall s, t | s + [separator] + t == a + [separator] + b :: s == a && t == b) <==> separator !in a && separator !in b
  {
    var joined := a + [separator] + b;
    if i :| 0 <= i < |a| && a[i] == separator {
      assert a == a[..i] + [separator] + a[i + 1..];
      assert a[..i] + [separator] + (a[i + 1..] + [separator] + b) == joined;
      assert |a[..i]| != |a|;
    } else if i :| 0 <= i < |b| && b[i] == separator {
      assert b == b[..i] + [separator] + b[i + 1..];
      assert (a + [separator] + b[..i]) + [separator] + b[i + 1..] == joined;
      assert |a + [separator] + b[..i]| != |a|;
    } else {
      forall s, t | s + [separator] + t == joined ensures s == a && t == b {
        assert (s + [separator] + t)[|s|] == separator == joined[|a|];
        assert forall k | 0 <= k < |joined| && k != |a| :: joined[k] != separator;
        assert s == (s + [separator] + t)[..|s|] && t == (s + [separator] + t)[|s| + 1..];
        assert a == joined[..|a|] && b == joined[|a| + 1..];
      }
    }
  }

  function TrimLeft(s: string): string {
    if s != [] && IsSpace(s[0]) then TrimLeft(s[1..]) else s
  }

  function TrimRight(s: string): string {
    if s != [] && IsSpace(s[|s| - 1]) then TrimRight(s[..|s| - 1]) else s
  }

  function TrimSpace(s: string): string {
    TrimRight(TrimLeft(s))
  }

  function TrimSuffix(s: string, suffix: string): string {
    if |suffix| <= |s| && s[|s| - |suffix|..] == suffix then s[..|s| - |suffix|] else s
  }

  /** A text without its final dot, if it has one. */
  function Undotted(s: string): string {
    if s != "" && s[|s| - 1] == '.' then s[..|s| - 1] else s
  }

  lemma Undots(s: string)
    ensures TrimSuffix(s, ".") == Undotted(s)
  {
  }

  function LowerChar(c: char): char {
    if 'A' <= c <= 'Z' then c + 'a' - 'A' else c
  }

  function UpperChar(c: char): char {
    if 'a' <= c <= 'z' then c - 'a' + 'A' else c
  }

  function Lower(s: string): (l: string)
    ensures |l| == |s|
  {
    seq(|s|, i requires 0 <= i < |s| => LowerChar(s[i]))
  }

  function Upper(s: string): (u: string)
    ensures |u| == |s|
  {
    seq(|s|, i requires 0 <= i < |s| => UpperChar(s[i]))
  }

  /** Folding either way forgets the case and nothing else. */
  lemma FoldingAgrees(c: char, d: char)
    ensures LowerChar(c) == LowerChar(d) <==> UpperChar(c) == UpperChar(d)
    ensures !('A' <= LowerChar(c) <= 'Z') && !('a' <= UpperChar(c) <= 'z')
    ensures LowerChar(c) == LowerChar(d) <==> c == d || ('A' <= c <= 'Z' && d == c + 'a' - 'A') || ('A' <= d <= 'Z' && c == d + 'a' - 'A')
  {
  }

  predicate Spaces(s: string) {
    forall c | c in s :: IsSpace(c)
  }

  lemma {:induction false} TrimRightTakes(s: string) returns (after: string)
    ensures s == TrimRight(s) + after && Spaces(after)
  {
    hide IsSpace;
    if s != "" && IsSpace(s[|s| - 1]) {
      var front, last := s[..|s| - 1], [s[|s| - 1]];
      after := TrimRightTakes(front);
      assert s == front + last == TrimRight(front) + (after + last);
      after := after + last;
    } else {
      after := "";
    }
  }

  lemma {:induction false} TrimLeftTakes(s: string) returns (before: string)
    ensures s == before + TrimLeft(s) && Spaces(before)
  {
    hide IsSpace;
    if s != "" && IsSpace(s[0]) {
      var head, tail := [s[0]], s[1..];
      before := TrimLeftTakes(tail);
      assert s == head + tail == (head + before) + TrimLeft(tail);
      before := head + before;
    } else {
      before := "";
    }
  }

  /** Trimming takes off spaces on both sides, and all of them. */
  lemma TrimSpaceTakes(s: string) returns (before: string, after: string)
    ensures s == before + TrimSpace(s) + after && Spaces(before) && Spaces(after)
    ensures TrimSpace(s) == "" || (!IsSpace(TrimSpace(s)[0]) && !IsSpace(TrimSpace(s)[|TrimSpace(s)| - 1]))
  {
    before := TrimLeftTakes(s);
    after := TrimRightTakes(TrimLeft(s));
    TrimSpaceEnds(s);
    assert s == before + (TrimSpace(s) + after);
  }

  lemma {:induction false} TrimLeftLower(s: string)
    ensures TrimLeft(Lower(s)) == Lower(TrimLeft(s))
  {
    if s != "" && IsSpace(s[0]) {
      TrimLeftLower(s[1..]);
      assert Lower(s)[1..] == Lower(s[1..]);
    }
  }

  lemma {:induction false} TrimRightLower(s: string)
    ensures TrimRight(Lower(s)) == Lower(TrimRight(s))
  {
    if s != "" && IsSpace(s[|s| - 1]) {
      TrimRightLower(s[..|s| - 1]);
      assert Lower(s)[..|s| - 1] == Lower(s[..|s| - 1]);
    }
  }

  lemma {:induction false} TrimRightKeepsHead(s: string)
    requires s != "" && !IsSpace(s[0])
    ensures TrimRight(s) != "" && TrimRight(s)[0] == s[0]
    ensures !IsSpace(TrimRight(s)[|TrimRight(s)| - 1])
  {
    if |s| > 1 && IsSpace(s[|s| - 1]) {
      TrimRightKeepsHead(s[..|s| - 1]);
    }
  }

  /** Trimming takes spaces off both ends, and leaves none there. */
  lemma TrimSpaceEnds(s: string)
    ensures TrimSpace(s) == "" || (!IsSpace(TrimSpace(s)[0]) && !IsSpace(TrimSpace(s)[|TrimSpace(s)| - 1]))
  {
    TrimLeftStops(s);
    if TrimLeft(s) != "" {
      TrimRightKeepsHead(TrimLeft(s));
    }
  }

  lemma TrimmedStays(s: string)
    requires s == "" || (!IsSpace(s[0]) && !IsSpace(s[|s| - 1]))
    ensures TrimSpace(s) == s
  {
  }

  lemma TrimSpaceLower(s: string)
    ensures TrimSpace(Lower(s)) == Lower(TrimSpace(s))
  {
    TrimLeftLower(s);
    TrimRightLower(TrimLeft(s));
  }

  lemma {:induction false} TrimLeftStops(s: string)
    ensures TrimLeft(s) == "" || !IsSpace(TrimLeft(s)[0])
  {
    if s != "" && IsSpace(s[0]) {
      TrimLeftStops(s[1..]);
    }
  }

  /** A trimmed lower-case name stays as it is when trimmed or lowered again. */
  lemma TrimLowerIdempotent(s: string)
    ensures var t := Lower(TrimSpace(s)); TrimSpace(t) == t && Lower(t) == t
  {
    var left := TrimLeft(s);
    TrimLeftStops(s);
    TrimRightLower(TrimLeft(TrimSpace(s)));
    TrimLeftLower(TrimSpace(s));
    if left != "" {
      TrimRightKeepsHead(left);
    }
    assert TrimSpace(TrimSpace(s)) == TrimSpace(s);
    assert Lower(Lower(TrimSpace(s))) == Lower(TrimSpace(s));
  }
}
