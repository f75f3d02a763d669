/** The key prefix of a durable function's name, and which names share one. */
module DurableNames {
  import opened Text
  import opened Wrappers

  const STEM := "RUNFABRIC_DURABLE_"
  const DEFAULT := "ORCHESTRATION"

  predicate IsWordChar(c: char) {
    'A' <= c <= 'Z' || '0' <= c <= '9'
  }

  /** Each run of other characters becomes one underscore. */
  function Collapse(s: string): string {
    if s == "" then ""
    else if IsWordChar(s[0]) then [s[0]] + Collapse(s[1..])
    else if |s| > 1 && !IsWordChar(s[1]) then Collapse(s[1..])
    else "_" + Collapse(s[1..])
  }

  function TrimUnderscores(s: string): string {
    if s != "" && s[0] == '_' then TrimUnderscores(s[1..])
    else if s != "" && s[|s| - 1] == '_' then TrimUnderscores(s[..|s| - 1])
    else s
  }

  function Prefix(name: string): string {
    var n := TrimUnderscores(Collapse(TrimSpace(Upper(name))));
    STEM + if n == "" then DEFAULT else n
  }

  // ---- Names as words ----

  /** The maximal runs of letters and digits. */
  function Words(s: string): seq<string> {
    if s == "" then []
    else
      var rest := Words(s[1..]);
      if !IsWordChar(s[0]) then rest
      else if |s| > 1 && IsWordChar(s[1]) && rest != [] then [[s[0]] + rest[0]] + rest[1..]
      else [[s[0]]] + rest
  }

  function Joined(words: seq<string>): string {
    if words == [] then ""
    else if |words| == 1 then words[0]
    else words[0] + "_" + Joined(words[1..])
  }

  predicate IsWord(w: string) {
    w != "" && forall i | 0 <= i < |w| :: IsWordChar(w[i])
  }

  predicate AreWords(words: seq<string>) {
    forall i | 0 <= i < |words| :: IsWord(words[i])
  }

  lemma {:induction false} WordsAreWords(s: string)
    ensures AreWords(Words(s))
    ensures s != "" && IsWordChar(s[0]) ==> Words(s) != []
  {
    if s != "" {
      WordsAreWords(s[1..]);
      var rest := Words(s[1..]);
      if IsWordChar(s[0]) && rest != [] {
        assert IsWord(rest[0]) && IsWord([s[0]] + rest[0]);
      }
    }
  }

  function Lead(s: string): string {
    if s != "" && !IsWordChar(s[0]) then "_" else ""
  }

  function Trail(s: string): string {
    if Words(s) != [] && !IsWordChar(s[|s| - 1]) then "_" else ""
  }

  lemma {:induction false} NoWordsNoLast(s: string)
    requires s != "" && Words(s) == []
    ensures !IsWordChar(s[|s| - 1])
  {
    WordsAreWords(s);
    if |s| > 1 {
      NoWordsNoLast(s[1..]);
    }
  }

  lemma JoinedExtends(c: char, words: seq<string>)
    requires words != []
    ensures Joined([[c] + words[0]] + words[1..]) == [c] + Joined(words)
  {
    var extended := [[c] + words[0]] + words[1..];
    assert extended[1..] == words[1..];
    if |words| > 1 {
      assert Joined(extended) == [c] + words[0] + "_" + Joined(words[1..]);
    }
  }

  lemma JoinedCons(c: char, words: seq<string>)
    ensures Joined([[c]] + words) == [c] + if words == [] then "" else "_" + Joined(words)
  {
    assert ([[c]] + words)[1..] == words;
  }

  lemma CollapseStep(s: string)
    requires s != ""
    ensures Collapse(s) == if IsWordChar(s[0]) then [s[0]] + Collapse(s[1..])
                           else if |s| > 1 && !IsWordChar(s[1]) then Collapse(s[1..])
                           else "_" + Collapse(s[1..])
  {
  }

  lemma WordsStep(s: string)
    requires s != "" && IsWordChar(s[0])
    ensures var tail := s[1..];
            && Words(s) != []
            && Joined(Words(s)) == [s[0]] + if Words(tail) == [] then "" else if IsWordChar(tail[0]) then Joined(Words(tail)) else "_" + Joined(Words(tail))
  {
    hide Joined;
    var tail := s[1..];
    WordsAreWords(tail);
    if tail != "" && IsWordChar(tail[0]) {
      JoinedExtends(s[0], Words(tail));
    } else {
      JoinedCons(s[0], Words(tail));
    }
  }

  /** Collapsing keeps the words, one underscore between them and at most one at each end. */
  lemma {:induction false} CollapseIs(s: string)
    ensures Collapse(s) == Lead(s) + Joined(Words(s)) + Trail(s)
  {
    if s == "" {
      JoinedNone();
    } else {
      var tail := s[1..];
      CollapseIs(tail);
      hide *;
      if IsWordChar(s[0]) {
        CollapseOfWord(s);
      } else {
        CollapseOfGap(s);
      }
    }
  }

  lemma CollapseOfWord(s: string)
    requires s != "" && IsWordChar(s[0]) && Collapse(s[1..]) == Lead(s[1..]) + Joined(Words(s[1..])) + Trail(s[1..])
    ensures Collapse(s) == Lead(s) + Joined(Words(s)) + Trail(s)
  {
    hide Collapse, Joined, Trail, Words, IsWordChar;
    CollapseStep(s);
    WordsStep(s);
    TrailOfWord(s);
    JoinedNone();
    var c, lead, joined, trail := [s[0]], Lead(s[1..]), Joined(Words(s[1..])), Trail(s[1..]);
    Regrouped(c, lead, joined, trail);
    assert Lead(s) == "";
    assert Joined(Words(s)) == if Words(s[1..]) == [] then c + "" else c + (lead + joined);
  }

  lemma Regrouped(c: string, lead: string, joined: string, trail: string)
    ensures c + (lead + joined + trail) == "" + (c + (lead + joined)) + trail
    ensures "" + joined == joined && c + (lead + "" + "") == "" + (c + "") + lead
  {
  }

  lemma CollapseOfGap(s: string)
    requires s != "" && !IsWordChar(s[0]) && Collapse(s[1..]) == Lead(s[1..]) + Joined(Words(s[1..])) + Trail(s[1..])
    ensures Collapse(s) == Lead(s) + Joined(Words(s)) + Trail(s)
  {
    hide Collapse, Joined, IsWordChar;
    CollapseStep(s);
    assert Words(s) == Words(s[1..]);
    assert Trail(s) == Trail(s[1..]);
  }

  lemma JoinedNone()
    ensures Joined([]) == ""
  {
  }

  /** How the end of a text that starts with a word relates to its tail's. */
  lemma TrailOfWord(s: string)
    requires s != "" && IsWordChar(s[0])
    ensures var tail := s[1..];
            && Trail(s) == (if tail != "" && Words(tail) == [] then "_" else Trail(tail))
            && (tail == "" ==> Words(tail) == []) && (Words(tail) == [] ==> Trail(tail) == "")
            && (tail != "" && IsWordChar(tail[0]) ==> Words(tail) != [])
  {
    var tail := s[1..];
    WordsAreWords(s);
    WordsAreWords(tail);
    hide AreWords;
    if tail != "" {
      assert tail[|tail| - 1] == s[|s| - 1];
      if Words(tail) == [] {
        NoWordsNoLast(tail);
      }
    }
  }

  lemma {:induction false} JoinedEnds(words: seq<string>)
    requires AreWords(words) && words != []
    ensures var j := Joined(words); j != "" && j[0] != '_' && j[|j| - 1] != '_'
  {
    assert IsWord(words[0]);
    if |words| > 1 {
      JoinedEnds(words[1..]);
      var rest := Joined(words[1..]);
      var j := Joined(words);
      assert j == words[0] + "_" + rest;
      assert j[0] == words[0][0] && j[|j| - 1] == rest[|rest| - 1];
    }
  }

  lemma TrimmedEnds(lead: string, j: string, trail: string)
    requires (lead == "" || lead == "_") && (trail == "" || trail == "_") && j != "" && j[0] != '_' && j[|j| - 1] != '_'
    ensures TrimUnderscores(lead + j + trail) == j
  {
    hide TrimUnderscores;
    var t := j + trail;
    assert t[0] == j[0] && lead + j + trail == lead + t;
    TrimmedLast(j, trail);
    if lead == "" {
      assert lead + t == t;
    } else {
      UnderscoreTrimmed(t);
    }
  }

  lemma UnderscoreTrimmed(t: string)
    ensures TrimUnderscores("_" + t) == TrimUnderscores(t)
  {
    assert ("_" + t)[1..] == t;
  }

  lemma TrimmedLast(j: string, trail: string)
    requires (trail == "" || trail == "_") && j != "" && j[0] != '_' && j[|j| - 1] != '_'
    ensures TrimUnderscores(j + trail) == j
  {
    if trail == "" {
      assert j + trail == j;
    } else {
      assert (j + trail)[..|j|] == j && (j + trail)[0] == j[0];
    }
  }

  lemma {:induction false} WordsDropLast(s: string)
    requires s != "" && !IsWordChar(s[|s| - 1])
    ensures Words(s[..|s| - 1]) == Words(s)
  {
    if |s| > 1 {
      WordsDropLast(s[1..]);
      assert s[1..][..|s| - 2] == s[..|s| - 1][1..];
    }
  }

  lemma {:induction false} WordsTrimRight(s: string)
    ensures Words(TrimRight(s)) == Words(s)
  {
    if s != "" && IsSpace(s[|s| - 1]) {
      WordsTrimRight(s[..|s| - 1]);
      WordsDropLast(s);
    }
  }

  lemma {:induction false} WordsTrimLeft(s: string)
    ensures Words(TrimLeft(s)) == Words(s)
  {
    if s != "" && IsSpace(s[0]) {
      WordsTrimLeft(s[1..]);
    }
  }

  /** What a prefix is made of. */
  function WordsOf(name: string): seq<string> {
    var words := Words(Upper(name));
    if words == [] then [DEFAULT] else words
  }

  lemma PrefixIsWords(name: string)
    ensures Prefix(name) == "RUNFABRIC_DURABLE_" + Joined(WordsOf(name)) && AreWords(WordsOf(name)) && WordsOf(name) != []
  {
    var trimmed := TrimSpace(Upper(name));
    WordsTrimLeft(Upper(name));
    WordsTrimRight(TrimLeft(Upper(name)));
    CollapseIs(trimmed);
    WordsAreWords(trimmed);
    DefaultIsWord();
    assert Words(trimmed) == Words(Upper(name));
    OnlyUnderscore();
    hide TrimSpace, Collapse, TrimUnderscores, Words, AreWords, Upper, Joined;
    var lead, trail := Lead(trimmed), Trail(trimmed);
    if Words(trimmed) == [] {
      assert lead + "" + "" == lead;
    } else {
      JoinedEnds(Words(trimmed));
      TrimmedEnds(lead, Joined(Words(trimmed)), trail);
      assert Joined(Words(trimmed)) != "";
    }
  }

  lemma OnlyUnderscore()
    ensures TrimUnderscores("_") == "" && TrimUnderscores("") == "" && Joined([]) == "" && Joined([DEFAULT]) == DEFAULT
  {
    assert "_"[1..] == "";
  }

  lemma DefaultIsWord()
    ensures AreWords([DEFAULT])
  {
    assert forall k | 0 <= k < |DEFAULT| :: IsWordChar(DEFAULT[k]);
  }

  lemma {:induction false} JoinedInjective(u: seq<string>, v: seq<string>)
    requires AreWords(u) && AreWords(v) && u != [] && v != [] && Joined(u) == Joined(v)
    ensures u == v
  {
    FirstWord(u);
    FirstWord(v);
    var j := Joined(u);
    var n, m := |u[0]|, |v[0]|;
    assert IsWord(u[0]) && IsWord(v[0]);
    assert (forall i | 0 <= i < n :: IsWordChar(j[i])) && (forall i | 0 <= i < m :: IsWordChar(j[i]));
    assert n == m;
    assert u[0] == j[..n] == v[0];
    if |u| > 1 && |v| > 1 {
      assert j[n + 1..] == Joined(u[1..]) && j[n + 1..] == Joined(v[1..]);
      JoinedInjective(u[1..], v[1..]);
      assert u == [u[0]] + u[1..] && v == [v[0]] + v[1..];
    }
  }

  /** The first word ends where the first underscore stands. */
  lemma FirstWord(u: seq<string>)
    requires AreWords(u) && u != []
    ensures var j, n := Joined(u), |u[0]|;
            && n <= |j| && j[..n] == u[0] && (n == |j| <==> |u| == 1) && (n < |j| ==> j[n] == '_' && j[n + 1..] == Joined(u[1..]))
  {
  }

  /** Two names share their keys exactly when they have the same words, letter case and
      everything between and around words aside; no word at all counts as ORCHESTRATION. */
  lemma PrefixesEqualIff(a: string, b: string)
    ensures Prefix(a) == Prefix(b) <==> WordsOf(a) == WordsOf(b)
  {
    PrefixIsWords(a);
    PrefixIsWords(b);
    if Prefix(a) == Prefix(b) {
      hide Joined, WordsOf, AreWords;
      var x, y := Joined(WordsOf(a)), Joined(WordsOf(b));
      assert x == (STEM + x)[|STEM|..] == (STEM + y)[|STEM|..] == y;
      JoinedInjective(WordsOf(a), WordsOf(b));
    }
  }

  /** Names that differ in a separator only collide, and so does no name with "orchestration". */
  lemma CollidingNames()
    ensures Prefix("a-b") == Prefix("a_b") && Prefix("") == Prefix("orchestration")
  {
    assert Upper("a-b") == "A-B" && Upper("a_b") == "A_B" && Upper("") == "" && Upper("orchestration") == DEFAULT;
    assert "A-B"[1..] == "-B" && "-B"[1..] == "B" && "A_B"[1..] == "_B" && "_B"[1..] == "B" && "B"[1..] == "";
    assert Words("B") == ["B"] && Words("-B") == ["B"] && Words("_B") == ["B"];
    OneWord(DEFAULT);
    PrefixesEqualIff("a-b", "a_b");
    PrefixesEqualIff("", "orchestration");
  }

  lemma {:induction false} OneWord(w: string)
    requires IsWord(w)
    ensures Words(w) == [w]
  {
    assert w == [w[0]] + w[1..];
    if |w| > 1 {
      var rest := w[1..];
      assert IsWord(rest) && IsWordChar(w[1]);
      OneWord(rest);
      assert Words(w) == [[w[0]] + rest] + [rest][1..];
    } else {
      assert w[1..] == "" && w == [w[0]] && IsWordChar(w[0]);
      assert Words(w) == [[w[0]]] + Words("");
    }
  }
}
