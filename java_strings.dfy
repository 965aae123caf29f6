/** The two java.lang.String operations the tag parser relies on: `trim()` and
    `split(",")` (a one-character separator, limit 0). */
module JavaStrings {

  /** `trim()` strips every character whose code is at most U+0020 (space and the control characters). */
  predicate IsTrimmable(c: char)
  {
    c <= ' '
  }

  predicate IsBlank(s: string)
  {
    forall i :: 0 <= i < |s| ==> IsTrimmable(s[i])
  }

  /** `s` without its leading trimmable characters. */
  function TrimStart(s: string): string
    decreases |s|
  {
    if s == [] || !IsTrimmable(s[0]) then s else TrimStart(s[1..])
  }

  /** `s` without its trailing trimmable characters. */
  function TrimEnd(s: string): string
    decreases |s|
  {
    if s == [] || !IsTrimmable(s[|s| - 1]) then s else TrimEnd(s[..|s| - 1])
  }

  /** `String.trim()`. */
  function Trim(s: string): string
  {
    TrimEnd(TrimStart(s))
  }

  lemma {:induction false} TrimStartIsSuffix(s: string)
    ensures |TrimStart(s)| <= |s| && TrimStart(s) == s[|s| - |TrimStart(s)|..]
    ensures TrimStart(s) == [] || !IsTrimmable(TrimStart(s)[0])
    ensures forall i :: 0 <= i < |s| - |TrimStart(s)| ==> IsTrimmable(s[i])
    decreases |s|
  {
    if s != [] && IsTrimmable(s[0]) {
      TrimStartIsSuffix(s[1..]);
    }
  }

  lemma {:induction false} TrimEndIsPrefix(s: string)
    ensures |TrimEnd(s)| <= |s| && TrimEnd(s) == s[..|TrimEnd(s)|]
    ensures TrimEnd(s) == [] || !IsTrimmable(TrimEnd(s)[|TrimEnd(s)| - 1])
    ensures forall i :: |TrimEnd(s)| <= i < |s| ==> IsTrimmable(s[i])
    decreases |s|
  {
    if s != [] && IsTrimmable(s[|s| - 1]) {
      TrimEndIsPrefix(s[..|s| - 1]);
    }
  }

  /** `r` is the slice of `s` starting at `k`, and everything of `s` around it is trimmable. */
  ghost predicate TrimmedAt(s: string, r: string, k: int)
  {
    && 0 <= k && k + |r| <= |s| && r == s[k..k + |r|]
    && (forall i :: 0 <= i < k ==> IsTrimmable(s[i]))
    && (forall i :: k + |r| <= i < |s| ==> IsTrimmable(s[i]))
  }

  /** `trim()` keeps one contiguous slice, strips only trimmable characters around it,
      and leaves a string that neither starts nor ends with one. */
  lemma TrimIsTrimmedSlice(s: string)
    ensures Trim(s) == [] || (!IsTrimmable(Trim(s)[0]) && !IsTrimmable(Trim(s)[|Trim(s)| - 1]))
    ensures exists k :: TrimmedAt(s, Trim(s), k)
  {
    var t := TrimStart(s);
    TrimStartIsSuffix(s);
    TrimEndIsPrefix(t);
    assert TrimmedAt(s, Trim(s), |s| - |t|);
  }

  /** `s.trim().isEmpty()` holds exactly for the blank strings. */
  lemma TrimEmptyIffBlank(s: string)
    ensures Trim(s) == [] <==> IsBlank(s)
  {
    var r := Trim(s);
    TrimIsTrimmedSlice(s);
    var k :| TrimmedAt(s, r, k);
    if r == [] {
      forall i | 0 <= i < |s| ensures IsTrimmable(s[i]) {
        assert i < k || k + |r| <= i;
      }
    } else {
      assert s[k] == r[0];
    }
  }

  /** Trimming twice is trimming once: a trimmed string has nothing left to strip. */
  lemma TrimIdempotent(s: string)
    ensures Trim(Trim(s)) == Trim(s)
  {
    var r := Trim(s);
    TrimIsTrimmedSlice(s);
    assert TrimStart(r) == r;
    assert TrimEnd(r) == r;
  }

  /** The trimmed string holds only characters of `s`. */
  lemma TrimChars(s: string, c: char)
    requires c !in s
    ensures c !in Trim(s)
  {
    var r := Trim(s);
    TrimIsTrimmedSlice(s);
    var k :| TrimmedAt(s, r, k);
    forall i | 0 <= i < |r| ensures r[i] != c {
      assert r[i] == s[k + i];
    }
  }

  /** The pieces joined back with the separator between them. */
  function Join(ps: seq<string>, sep: char): string
    decreases |ps|
  {
    if |ps| == 0 then []
    else if |ps| == 1 then ps[0]
    else ps[0] + [sep] + Join(ps[1..], sep)
  }

  /** Every piece between separators, empty ones included (a split with no limit). */
  function SplitAll(s: string, sep: char): (r: seq<string>)
    ensures |r| >= 1
    ensures forall i :: 0 <= i < |r| ==> sep !in r[i]
    ensures Join(r, sep) == s
    decreases |s|
  {
    if s == [] then [[]]
    else
      var rest := SplitAll(s[1..], sep);
      if s[0] == sep then
        assert ([[]] + rest)[1..] == rest;
        [[]] + rest
      else
        assert s == [s[0]] + s[1..];
        [[s[0]] + rest[0]] + rest[1..]
  }

  lemma {:induction false} SplitAllNoSeparator(s: string, sep: char)
    requires sep !in s
    ensures SplitAll(s, sep) == [s]
    decreases |s|
  {
    if s != [] {
      SplitAllNoSeparator(s[1..], sep);
    }
  }

  lemma {:induction false} SplitAllAtSeparator(a: string, t: string, sep: char)
    requires sep !in a
    ensures SplitAll(a + [sep] + t, sep) == [a] + SplitAll(t, sep)
    decreases |a|
  {
    if a == [] {
      assert a + [sep] + t == [sep] + t;
      assert ([sep] + t)[1..] == t;
    } else {
      assert (a + [sep] + t)[1..] == a[1..] + [sep] + t;
      SplitAllAtSeparator(a[1..], t, sep);
      assert [a[0]] + a[1..] == a;
    }
  }

  /** Splitting is the inverse of joining pieces that hold no separator. */
  lemma {:induction false} SplitAllJoin(ps: seq<string>, sep: char)
    requires |ps| >= 1
    requires forall i :: 0 <= i < |ps| ==> sep !in ps[i]
    ensures SplitAll(Join(ps, sep), sep) == ps
    decreases |ps|
  {
    if |ps| == 1 {
      SplitAllNoSeparator(ps[0], sep);
    } else {
      SplitAllJoin(ps[1..], sep);
      SplitAllAtSeparator(ps[0], Join(ps[1..], sep), sep);
      assert [ps[0]] + ps[1..] == ps;
    }
  }

  /** The pieces without the trailing empty ones, as `split` with limit 0 leaves them. */
  function DropTrailingEmpty(ps: seq<string>): (r: seq<string>)
    ensures |r| <= |ps| && r == ps[..|r|]
    ensures r == [] || r[|r| - 1] != []
    ensures forall i :: |r| <= i < |ps| ==> ps[i] == []
    decreases |ps|
  {
    if ps == [] || ps[|ps| - 1] != [] then ps else DropTrailingEmpty(ps[..|ps| - 1])
  }

  /** `s.split(String.valueOf(sep))` for a separator that is not a regular-expression
      metacharacter: a string without the separator comes back whole (even the empty
      string), otherwise the pieces with the trailing empty ones removed. */
  function Split(s: string, sep: char): (r: seq<string>)
    ensures forall i :: 0 <= i < |r| ==> sep !in r[i]
    ensures sep !in s ==> r == [s]
    ensures sep in s ==> r == [] || r[|r| - 1] != []
  {
    if sep !in s then [s] else DropTrailingEmpty(SplitAll(s, sep))
  }

  /** `r` is a prefix of `s` and the rest of `s` is separators only. */
  ghost predicate PrefixBeforeSeparators(r: string, s: string, sep: char)
  {
    |r| <= |s| && r == s[..|r|] && forall i :: |r| <= i < |s| ==> s[i] == sep
  }

  lemma {:induction false} JoinSnoc(ps: seq<string>, p: string, sep: char)
    requires |ps| >= 1
    ensures Join(ps + [p], sep) == Join(ps, sep) + [sep] + p
    decreases |ps|
  {
    if |ps| == 1 {
      assert (ps + [p])[1..] == [p];
    } else {
      assert (ps + [p])[1..] == ps[1..] + [p];
      JoinSnoc(ps[1..], p, sep);
    }
  }

  lemma {:induction false} JoinDropTrailingEmpty(ps: seq<string>, sep: char)
    ensures PrefixBeforeSeparators(Join(DropTrailingEmpty(ps), sep), Join(ps, sep), sep)
    decreases |ps|
  {
    if ps != [] && ps[|ps| - 1] == [] {
      var init := ps[..|ps| - 1];
      JoinDropTrailingEmpty(init, sep);
      assert init + [[]] == ps;
      if |init| >= 1 {
        JoinSnoc(init, [], sep);
      }
    }
  }

  /** Joining the pieces of `split` gives back the input up to its trailing separators. */
  lemma SplitJoin(s: string, sep: char)
    ensures PrefixBeforeSeparators(Join(Split(s, sep), sep), s, sep)
  {
    if sep in s {
      JoinDropTrailingEmpty(SplitAll(s, sep), sep);
    }
  }
}
