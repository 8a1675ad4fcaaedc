/**
 * The two JavaScript string operations the check filter and the projection use:
 * the relational operators on strings (`a < b`, `a > b`), which compare
 * lexicographically element by element, and `s.split(sep)` for a one-character
 * separator, together with indexing its result (`s.split(sep)[k]`), which gives
 * `undefined` past the end instead of failing.
 */
module JsString {
  import opened Wrappers

  /** JavaScript's `a < b` on two strings: `a` is a proper prefix of `b`, or the first element where they differ is smaller in `a`. */
  predicate Less(a: string, b: string)
  {
    if b == [] then false
    else if a == [] then true
    else if a[0] != b[0] then a[0] < b[0]
    else Less(a[1..], b[1..])
  }

  /** `a` and `b` agree before index `k`, and `a[k]` comes first. */
  ghost predicate DiffersFirstAt(a: string, b: string, k: int)
  {
    0 <= k < |a| && k < |b| && a[..k] == b[..k] && a[k] < b[k]
  }

  /** The textbook definition of lexicographic order, independent of `Less`. */
  ghost predicate Lexicographic(a: string, b: string)
  {
    (|a| < |b| && a == b[..|a|]) || exists k :: DiffersFirstAt(a, b, k)
  }

  lemma {:induction false} LessIsLexicographic(a: string, b: string)
    ensures Less(a, b) <==> Lexicographic(a, b)
  {
    if b == [] {
    } else if a == [] {
      assert a == b[..0];
    } else if a[0] != b[0] {
      if a[0] < b[0] {
        assert a[..0] == b[..0];
        assert DiffersFirstAt(a, b, 0);
      }
    } else {
      LessIsLexicographic(a[1..], b[1..]);
      assert (|a| < |b| && a == b[..|a|]) <==> (|a[1..]| < |b[1..]| && a[1..] == b[1..][..|a[1..]|]) by {
        if |a| < |b| && a == b[..|a|] {
          assert a[1..] == b[..|a|][1..];
        }
        if |a[1..]| < |b[1..]| && a[1..] == b[1..][..|a[1..]|] {
          assert a == [a[0]] + a[1..];
          assert b[..|a|] == [b[0]] + b[1..][..|a[1..]|];
        }
      }
      assert (exists k :: DiffersFirstAt(a, b, k)) <==> (exists k :: DiffersFirstAt(a[1..], b[1..], k)) by {
        forall k | DiffersFirstAt(a, b, k) ensures DiffersFirstAt(a[1..], b[1..], k - 1) {
          assert k != 0;
          assert a[1..][..k - 1] == a[..k][1..];
          assert b[1..][..k - 1] == b[..k][1..];
        }
        forall k | DiffersFirstAt(a[1..], b[1..], k) ensures DiffersFirstAt(a, b, k + 1) {
          assert a[..k + 1] == [a[0]] + a[1..][..k];
          assert b[..k + 1] == [b[0]] + b[1..][..k];
        }
      }
    }
  }

  /** No string is below itself: the filter's strict `>` excludes a timestamp equal to the bound. */
  lemma {:induction false} LessIrreflexive(a: string)
    ensures !Less(a, a)
  {
    if a != [] {
      LessIrreflexive(a[1..]);
    }
  }

  lemma {:induction false} LessAsymmetric(a: string, b: string)
    requires Less(a, b)
    ensures !Less(b, a)
  {
    if a != [] && a[0] == b[0] {
      LessAsymmetric(a[1..], b[1..]);
    }
  }

  lemma {:induction false} LessTransitive(a: string, b: string, c: string)
    requires Less(a, b) && Less(b, c)
    ensures Less(a, c)
  {
    if a != [] && a[0] == b[0] && b[0] == c[0] {
      LessTransitive(a[1..], b[1..], c[1..]);
    }
  }

  /** Any two different strings are ordered one way or the other. */
  lemma {:induction false} LessTotal(a: string, b: string)
    requires a != b
    ensures Less(a, b) || Less(b, a)
  {
    if a != [] && b != [] && a[0] == b[0] {
      assert a == [a[0]] + a[1..] && b == [b[0]] + b[1..];
      LessTotal(a[1..], b[1..]);
    }
  }

  /**
   * Comparing two strings at a cut `n`: when their first `n` elements differ, those
   * decide the order; when they agree, the rest does.
   */
  lemma {:induction false} LessSplitAt(a: string, b: string, n: nat)
    requires n <= |a| && n <= |b|
    ensures a[..n] != b[..n] ==> (Less(a, b) <==> Less(a[..n], b[..n]))
    ensures a[..n] == b[..n] ==> (Less(a, b) <==> Less(a[n..], b[n..]))
  {
    if n > 0 && a[0] == b[0] {
      LessSplitAt(a[1..], b[1..], n - 1);
      assert a[1..][..n - 1] == a[..n][1..] && b[1..][..n - 1] == b[..n][1..];
      assert a[1..][n - 1..] == a[n..] && b[1..][n - 1..] == b[n..];
      assert a[..n] == [a[0]] + a[..n][1..] && b[..n] == [b[0]] + b[..n][1..];
    }
  }

  /** `s.split(sep)` for a one-character separator: the pieces between separators, always at least one. */
  function Split(s: string, sep: char): (parts: seq<string>)
    ensures |parts| == multiset(s)[sep] + 1
    ensures forall p :: p in parts ==> sep !in p
  {
    if s == [] then [[]]
    else
      var rest := Split(s[1..], sep);
      assert s == [s[0]] + s[1..];
      if s[0] == sep then [[]] + rest
      else [[s[0]] + rest[0]] + rest[1..]
  }

  /** `parts.join(sep)`. */
  function Join(parts: seq<string>, sep: char): (s: string)
  {
    if parts == [] then []
    else if |parts| == 1 then parts[0]
    else parts[0] + [sep] + Join(parts[1..], sep)
  }

  lemma JoinCons(p: string, rest: seq<string>, sep: char)
    requires |rest| >= 1
    ensures Join([p] + rest, sep) == p + [sep] + Join(rest, sep)
  {
    assert ([p] + rest)[1..] == rest;
  }

  /** Joining the pieces of a split gives back the original string. */
  lemma {:induction false} JoinSplit(s: string, sep: char)
    ensures Join(Split(s, sep), sep) == s
  {
    if s != [] {
      var rest := Split(s[1..], sep);
      JoinSplit(s[1..], sep);
      if s[0] == sep {
        JoinAfterEmpty(rest, sep);
      } else {
        JoinExtendFirst(s[0], rest, sep);
      }
      assert s == [s[0]] + s[1..];
    }
  }

  lemma JoinAfterEmpty(rest: seq<string>, sep: char)
    requires |rest| >= 1
    ensures Join([[]] + rest, sep) == [sep] + Join(rest, sep)
  {
    assert ([[]] + rest)[1..] == rest;
  }

  lemma JoinExtendFirst(c: char, rest: seq<string>, sep: char)
    requires |rest| >= 1
    ensures Join([[c] + rest[0]] + rest[1..], sep) == [c] + Join(rest, sep)
  {
    var parts := [[c] + rest[0]] + rest[1..];
    if |rest| > 1 {
      assert parts[1..] == rest[1..];
      assert Join(parts, sep) == ([c] + rest[0]) + [sep] + Join(rest[1..], sep);
    }
  }

  lemma {:induction false} SplitWithoutSeparator(p: string, sep: char)
    requires sep !in p
    ensures Split(p, sep) == [p]
  {
    if p != [] {
      assert p == [p[0]] + p[1..];
      SplitWithoutSeparator(p[1..], sep);
    }
  }

  lemma {:induction false} SplitAfterPiece(p: string, sep: char, t: string)
    requires sep !in p
    ensures Split(p + [sep] + t, sep) == [p] + Split(t, sep)
  {
    var s := p + [sep] + t;
    if p == [] {
      assert s[1..] == t;
    } else {
      assert s[1..] == p[1..] + [sep] + t;
      SplitAfterPiece(p[1..], sep, t);
      assert [p[0]] + p[1..] == p;
    }
  }

  /** Splitting a join of separator-free pieces gives back the pieces. */
  lemma {:induction false} SplitJoin(parts: seq<string>, sep: char)
    requires |parts| >= 1
    requires forall p :: p in parts ==> sep !in p
    ensures Split(Join(parts, sep), sep) == parts
  {
    if |parts| == 1 {
      SplitWithoutSeparator(parts[0], sep);
    } else {
      SplitJoin(parts[1..], sep);
      SplitAfterPiece(parts[0], sep, Join(parts[1..], sep));
    }
  }

  /** `s.split(sep)[k]`: the `k`-th piece, or `undefined` (`None`) when there are too few pieces. */
  function Segment(s: string, sep: char, k: nat): (seg: Option<string>)
    ensures seg.Some? <==> k <= multiset(s)[sep]
    ensures seg.Some? ==> sep !in seg.value
  {
    var parts := Split(s, sep);
    if k < |parts| then Some(parts[k]) else None
  }

  /** In a string assembled from separator-free pieces, segment `k` is the `k`-th piece. */
  lemma SegmentOfJoin(parts: seq<string>, sep: char, k: nat)
    requires |parts| >= 1
    requires forall p :: p in parts ==> sep !in p
    ensures Segment(Join(parts, sep), sep, k) == if k < |parts| then Some(parts[k]) else None
  {
    SplitJoin(parts, sep);
  }
}
