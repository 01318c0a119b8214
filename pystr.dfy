/**
 * The handful of Python string operations the converter relies on:
 * `str.split` on one character, `str.join`, `str.replace` of one character,
 * `str.strip` (as `float()` applies it) and string repetition.
 * Each is defined once here and characterised by its contract; the
 * lemmas connect them (split and join are inverse, replace is join-of-split).
 */
module PyStr {

  /** `sep.join(xs)`: the pieces in order with `sep` between neighbours. */
  function Join(sep: string, xs: seq<string>): (r: string)
    ensures xs == [] ==> r == ""
    ensures |xs| == 1 ==> r == xs[0]
  {
    if |xs| == 0 then ""
    else if |xs| == 1 then xs[0]
    else Join(sep, xs[..|xs| - 1]) + sep + xs[|xs| - 1]
  }

  /** The joined text starts with the first piece, followed by the separator when more pieces follow. */
  lemma {:induction false} JoinFirst(sep: string, xs: seq<string>)
    requires xs != []
    ensures xs[0] <= Join(sep, xs)
    ensures |xs| >= 2 ==> xs[0] + sep <= Join(sep, xs)
    decreases |xs|
  {
    if |xs| >= 3 {
      var init := xs[..|xs| - 1];
      JoinFirst(sep, init);
      assert init[0] == xs[0];
    }
  }

  /** Joining one more piece appends the separator and that piece. */
  lemma JoinSnoc(sep: string, xs: seq<string>, x: string)
    requires xs != []
    ensures Join(sep, xs + [x]) == Join(sep, xs) + sep + x
  {
    assert (xs + [x])[..|xs|] == xs;
  }

  /** Extending the last piece by one character extends the joined text by it. */
  lemma JoinExtendLast(sep: string, xs: seq<string>, ch: char)
    requires xs != []
    ensures Join(sep, xs[..|xs| - 1] + [xs[|xs| - 1] + [ch]]) == Join(sep, xs) + [ch]
  {
    var init := xs[..|xs| - 1];
    var ys := init + [xs[|xs| - 1] + [ch]];
    if |xs| == 1 {
      assert ys == [xs[0] + [ch]];
    } else {
      JoinSnoc(sep, init, xs[|xs| - 1] + [ch]);
      JoinSnoc(sep, init, xs[|xs| - 1]);
      assert init + [xs[|xs| - 1]] == xs;
    }
  }

  /**
   * `s.split(c)`: the maximal pieces of `s` between occurrences of `c`.
   * There is always at least one piece and no piece contains `c`;
   * JoinSplit shows that joining the pieces with `c` gives back `s`.
   */
  function Split(s: string, c: char): (parts: seq<string>)
    ensures |parts| >= 1
    ensures forall i | 0 <= i < |parts| :: c !in parts[i]
    decreases |s|
  {
    if s == [] then [""]
    else
      var init := Split(s[..|s| - 1], c);
      var ch := s[|s| - 1];
      if ch == c then init + [""]
      else init[..|init| - 1] + [init[|init| - 1] + [ch]]
  }

  /** Joining the pieces of a split with the split character gives back the text. */
  lemma {:induction false} JoinSplit(s: string, c: char)
    ensures Join([c], Split(s, c)) == s
    decreases |s|
  {
    if s != [] {
      var s', ch := s[..|s| - 1], s[|s| - 1];
      JoinSplit(s', c);
      JoinSplitStep(s', ch, c);
      InitLast(s);
    }
  }

  /** One more character keeps joining-the-split the identity. */
  lemma JoinSplitStep(s: string, ch: char, c: char)
    requires Join([c], Split(s, c)) == s
    ensures Join([c], Split(s + [ch], c)) == s + [ch]
  {
    if ch == c {
      SplitSnocSep(s, c);
      JoinSnoc([c], Split(s, c), "");
    } else {
      SplitSnocChar(s, c, ch);
      JoinExtendLast([c], Split(s, c), ch);
    }
  }

  /** Appending `c` starts a new, empty last piece. */
  lemma SplitSnocSep(u: string, c: char)
    ensures Split(u + [c], c) == Split(u, c) + [""]
  {
    assert (u + [c])[..|u|] == u;
  }

  /** A non-empty sequence is its prefix without the last element, then that element; stated on its own so the proofs that use it stay small. */
  lemma InitLast<T>(s: seq<T>)
    requires s != []
    ensures s[..|s| - 1] + [s[|s| - 1]] == s
  {
  }

  /** A text without `c` splits into itself alone. */
  lemma {:induction false} SplitWithout(s: string, c: char)
    requires c !in s
    ensures Split(s, c) == [s]
    decreases |s|
  {
    if s != [] {
      var s', ch := s[..|s| - 1], s[|s| - 1];
      assert c !in s' by {
        forall i | 0 <= i < |s'| ensures s'[i] != c { assert s'[i] == s[i]; }
      }
      SplitWithout(s', c);
      assert s' + [ch] == s;
    }
  }

  /** Splitting `s + [c] + x`, with no `c` in `x`, adds `x` as a last piece. */
  lemma {:induction false} SplitSnocPiece(s: string, c: char, x: string)
    requires c !in x
    ensures Split(s + [c] + x, c) == Split(s, c) + [x]
    decreases |x|
  {
    if x == [] {
      assert (s + [c])[..|s|] == s;
      assert s + [c] + x == s + [c];
    } else {
      var x', ch := x[..|x| - 1], x[|x| - 1];
      assert c !in x' by {
        forall i | 0 <= i < |x'| ensures x'[i] != c { assert x'[i] == x[i]; }
      }
      var init := Split(s + [c] + x', c);
      calc {
        Split(s + [c] + x, c);
        { assert s + [c] + x == (s + [c] + x') + [ch] by { assert x == x' + [ch]; } }
        Split((s + [c] + x') + [ch], c);
        { SplitSnocChar(s + [c] + x', c, ch); }
        init[..|init| - 1] + [init[|init| - 1] + [ch]];
        { SplitSnocPiece(s, c, x'); assert init[..|init| - 1] == Split(s, c); }
        Split(s, c) + [x' + [ch]];
        { assert x' + [ch] == x; }
        Split(s, c) + [x];
      }
    }
  }

  /** Appending a character other than `c` extends the last piece. */
  lemma SplitSnocChar(u: string, c: char, ch: char)
    requires ch != c
    ensures var init := Split(u, c); Split(u + [ch], c) == init[..|init| - 1] + [init[|init| - 1] + [ch]]
  {
    assert (u + [ch])[..|u|] == u;
  }

  /** Splitting undoes joining, when no piece contains the separator. */
  lemma {:induction false} SplitJoin(xs: seq<string>, c: char)
    requires xs != []
    requires forall i | 0 <= i < |xs| :: c !in xs[i]
    ensures Split(Join([c], xs), c) == xs
    decreases |xs|
  {
    if |xs| == 1 {
      SplitWithout(xs[0], c);
    } else {
      var init := xs[..|xs| - 1];
      SplitJoin(init, c);
      JoinSnoc([c], init, xs[|xs| - 1]);
      assert init + [xs[|xs| - 1]] == xs;
      SplitSnocPiece(Join([c], init), c, xs[|xs| - 1]);
    }
  }

  /** `s.replace(c, rep)` for a single character `c`. */
  function ReplaceChar(s: string, c: char, rep: string): (r: string)
    ensures c !in rep ==> c !in r
    ensures c !in s ==> r == s
    decreases |s|
  {
    if s == [] then ""
    else
      var ch := s[|s| - 1];
      assert s == s[..|s| - 1] + [ch];
      ReplaceChar(s[..|s| - 1], c, rep) + (if ch == c then rep else [ch])
  }

  /** Replacing a character is joining, with the replacement, the pieces between its occurrences. */
  lemma {:induction false} ReplaceIsJoinOfSplit(s: string, c: char, rep: string)
    ensures ReplaceChar(s, c, rep) == Join(rep, Split(s, c))
    decreases |s|
  {
    if s != [] {
      var init := s[..|s| - 1];
      var ch := s[|s| - 1];
      ReplaceIsJoinOfSplit(init, c, rep);
      var parts := Split(init, c);
      if ch == c {
        JoinSnoc(rep, parts, "");
      } else {
        JoinExtendLast(rep, parts, ch);
      }
    }
  }

  /** `c * n` for a single character: `n` copies of `c`. */
  function Repeat(c: char, n: nat): (r: string)
    ensures |r| == n
    ensures forall i | 0 <= i < n :: r[i] == c
  {
    if n == 0 then "" else Repeat(c, n - 1) + [c]
  }

  /** The characters Python's `str.isspace` accepts. */
  predicate IsSpace(ch: char)
  {
    || '\t' <= ch <= '\r' || '\U{1c}' <= ch <= '\U{1f}' || ch == ' '
    || ch == '\U{85}' || ch == '\U{a0}' || ch == '\U{1680}'
    || '\U{2000}' <= ch <= '\U{200a}' || ch == '\U{2028}' || ch == '\U{2029}'
    || ch == '\U{202f}' || ch == '\U{205f}' || ch == '\U{3000}'
  }

  /** `s.lstrip()`: the suffix left after dropping leading whitespace. */
  function StripLeft(s: string): (r: string)
    ensures |r| <= |s| && r == s[|s| - |r|..]
    ensures forall i | 0 <= i < |s| - |r| :: IsSpace(s[i])
    ensures r == "" || !IsSpace(r[0])
  {
    if s == [] || !IsSpace(s[0]) then s else StripLeft(s[1..])
  }

  /** `s.rstrip()`: the prefix left after dropping trailing whitespace. */
  function StripRight(s: string): (r: string)
    ensures |r| <= |s| && r == s[..|r|]
    ensures forall i | |r| <= i < |s| :: IsSpace(s[i])
    ensures r == "" || !IsSpace(r[|r| - 1])
  {
    if s == [] || !IsSpace(s[|s| - 1]) then s else StripRight(s[..|s| - 1])
  }

  /** `s.strip()`. */
  function Strip(s: string): string
  {
    StripRight(StripLeft(s))
  }

  /** A text that neither starts nor ends with whitespace is its own strip. */
  lemma StripTrimmed(s: string)
    requires s != [] ==> !IsSpace(s[0]) && !IsSpace(s[|s| - 1])
    ensures Strip(s) == s
  {
  }
}
