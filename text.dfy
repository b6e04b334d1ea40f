/**
 * The string operations the routing core relies on, with Python's meaning:
 * `s.split(sep)`, `sep.join(tokens)`, the code-point order of `<` on strings,
 * and `sorted(set(tokens))`.
 */
module Text {

  /** Python's `s.split(sep)`: the pieces between separators; always at least one piece. */
  function Split(s: string, sep: char): (r: seq<string>)
    ensures |r| >= 1
    ensures forall i :: 0 <= i < |r| ==> sep !in r[i]
    decreases |s|
  {
    if s == [] then [[]]
    else
      var rest := Split(s[1..], sep);
      if s[0] == sep then [[]] + rest
      else [[s[0]] + rest[0]] + rest[1..]
  }

  /** Python's `sep.join(ts)`: the first token, then each further token after a separator. */
  function Join(ts: seq<string>, sep: char): (r: string)
    ensures |ts| == 0 ==> r == []
    ensures |ts| >= 1 ==> ts[0] <= r
    ensures |ts| >= 2 ==> ts[0] + [sep] <= r
  {
    if ts == [] then []
    else if |ts| == 1 then ts[0]
    else ts[0] + [sep] + Join(ts[1..], sep)
  }

  /** The set of tokens a list holds. */
  function Elements(ts: seq<string>): set<string>
  {
    set t | t in ts
  }

  lemma JoinExtendFirst(c: string, ts: seq<string>, sep: char)
    requires |ts| >= 1
    ensures Join([c + ts[0]] + ts[1..], sep) == c + Join(ts, sep)
  {
    var xs := [c + ts[0]] + ts[1..];
    if |ts| > 1 {
      assert xs[1..] == ts[1..];
    }
  }

  /** Joining the pieces of a split gives back the string. */
  lemma {:induction false} JoinSplit(s: string, sep: char)
    ensures Join(Split(s, sep), sep) == s
    decreases |s|
  {
    if s != [] {
      var rest := Split(s[1..], sep);
      JoinSplit(s[1..], sep);
      if s[0] == sep {
        assert ([[]] + rest)[1..] == rest;
        assert s == [sep] + s[1..];
      } else {
        JoinExtendFirst([s[0]], rest, sep);
        assert s == [s[0]] + s[1..];
      }
    }
  }

  /** A string without the separator splits into itself alone. */
  lemma {:induction false} SplitWithoutSeparator(w: string, sep: char)
    requires sep !in w
    ensures Split(w, sep) == [w]
    decreases |w|
  {
    if w != [] {
      SplitWithoutSeparator(w[1..], sep);
      assert [w[0]] + w[1..] == w;
    }
  }

  /** A string made only of separators splits into one more empty piece than it has characters. */
  lemma {:induction false} SplitAllSeparators(s: string, sep: char)
    requires forall i :: 0 <= i < |s| ==> s[i] == sep
    ensures Split(s, sep) == seq(|s| + 1, _ => [])
    decreases |s|
  {
    if s != [] {
      SplitAllSeparators(s[1..], sep);
    }
  }

  /** Splitting at one separator splits each side independently. */
  lemma {:induction false} SplitConcat(a: string, b: string, sep: char)
    ensures Split(a + [sep] + b, sep) == Split(a, sep) + Split(b, sep)
    decreases |a|
  {
    var s := a + [sep] + b;
    if a == [] {
      assert s[1..] == b;
    } else {
      assert s[1..] == a[1..] + [sep] + b;
      SplitConcat(a[1..], b, sep);
    }
  }

  /** Splitting the join of separator-free tokens gives back the tokens. */
  lemma {:induction false} SplitJoin(ts: seq<string>, sep: char)
    requires |ts| >= 1
    requires forall i :: 0 <= i < |ts| ==> sep !in ts[i]
    ensures Split(Join(ts, sep), sep) == ts
    decreases |ts|
  {
    SplitWithoutSeparator(ts[0], sep);
    if |ts| > 1 {
      SplitJoin(ts[1..], sep);
      SplitConcat(ts[0], Join(ts[1..], sep), sep);
    }
  }

  /** Python's `a < b` on strings: lexicographic by code point, a proper prefix first. */
  predicate Less(a: string, b: string): (r: bool)
    ensures r ==> a != b
    ensures a < b ==> r
    decreases |a|
  {
    |b| > 0 && (|a| == 0 || a[0] < b[0] || (a[0] == b[0] && Less(a[1..], b[1..])))
  }

  lemma LessIrreflexive(a: string)
    ensures !Less(a, a)
  {
  }

  lemma LessTransitive(a: string, b: string, c: string)
    requires Less(a, b) && Less(b, c)
    ensures Less(a, c)
  {
  }

  lemma LessTotal(a: string, b: string)
    requires a != b
    ensures Less(a, b) || Less(b, a)
  {
    if a != [] && b != [] && a[0] == b[0] {
      LessTotal(a[1..], b[1..]);
      assert a == [a[0]] + a[1..];
      assert b == [b[0]] + b[1..];
    }
  }

  lemma LessAsymmetric(a: string, b: string)
    requires Less(a, b)
    ensures !Less(b, a)
  {
    if Less(b, a) {
      LessTransitive(a, b, a);
      LessIrreflexive(a);
    }
  }

  /** Every token is smaller than the next one: sorted, with no duplicates. */
  predicate StrictlyIncreasing(s: seq<string>)
  {
    forall i, j :: 0 <= i < j < |s| ==> Less(s[i], s[j])
  }

  /** Inserts a token into a strictly increasing list, unless it is already there. */
  function Insert(x: string, s: seq<string>): (r: seq<string>)
    requires StrictlyIncreasing(s)
    ensures StrictlyIncreasing(r)
    ensures forall y :: y in r <==> y == x || y in s
  {
    if s == [] then [x]
    else if x == s[0] then s
    else if Less(x, s[0]) then
      assert forall j :: 0 <= j < |s| ==> Less(x, s[j]) by {
        forall j | 0 < j < |s| { LessTransitive(x, s[0], s[j]); }
      }
      [x] + s
    else
      LessTotal(x, s[0]);
      var tail := Insert(x, s[1..]);
      assert forall y :: y in tail ==> Less(s[0], y);
      [s[0]] + tail
  }

  /** Python's `sorted(set(ts))`: the distinct tokens in increasing order. */
  function SortedUnique(ts: seq<string>): (r: seq<string>)
    ensures StrictlyIncreasing(r)
    ensures Elements(r) == Elements(ts)
    ensures |ts| >= 1 ==> |r| >= 1
  {
    if ts == [] then []
    else
      var rest := SortedUnique(ts[1..]);
      var r := Insert(ts[0], rest);
      assert Elements(r) == {ts[0]} + Elements(rest);
      assert Elements(ts) == {ts[0]} + Elements(ts[1..]);
      r
  }

  lemma ElementsOfEmpty(s: seq<string>)
    ensures s == [] <==> Elements(s) == {}
  {
    if s != [] {
      assert s[0] in Elements(s);
    }
  }

  /** A strictly increasing list is determined by the set of its elements. */
  lemma {:induction false} StrictlyIncreasingUnique(a: seq<string>, b: seq<string>)
    requires StrictlyIncreasing(a) && StrictlyIncreasing(b)
    requires Elements(a) == Elements(b)
    ensures a == b
    decreases |a|
  {
    if a != [] && b != [] {
      if a[0] != b[0] {
        assert a[0] in Elements(b);
        var j :| 0 <= j < |b| && b[j] == a[0];
        assert b[0] in Elements(a);
        var i :| 0 <= i < |a| && a[i] == b[0];
        LessAsymmetric(a[0], a[i]);
        assert false;
      }
      forall y | y in Elements(a[1..]) ensures y in Elements(b[1..]) {
        var i :| 1 <= i < |a| && a[i] == y;
        assert Less(a[0], y);
        LessIrreflexive(y);
        assert y in Elements(b);
      }
      forall y | y in Elements(b[1..]) ensures y in Elements(a[1..]) {
        var j :| 1 <= j < |b| && b[j] == y;
        assert Less(b[0], y);
        LessIrreflexive(y);
        assert y in Elements(a);
      }
      StrictlyIncreasingUnique(a[1..], b[1..]);
    } else {
      ElementsOfEmpty(a);
      ElementsOfEmpty(b);
    }
  }

  /** `sorted(set(ts))` depends only on which tokens occur: order and repetition do not matter. */
  lemma SortedUniqueOfSameElements(ts1: seq<string>, ts2: seq<string>)
    requires Elements(ts1) == Elements(ts2)
    ensures SortedUnique(ts1) == SortedUnique(ts2)
  {
    StrictlyIncreasingUnique(SortedUnique(ts1), SortedUnique(ts2));
  }

  /** Sorting and deduplicating an already strictly increasing list changes nothing. */
  lemma SortedUniqueOfIncreasing(s: seq<string>)
    requires StrictlyIncreasing(s)
    ensures SortedUnique(s) == s
  {
    StrictlyIncreasingUnique(SortedUnique(s), s);
  }
}
