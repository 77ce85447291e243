/**
 * `s.replace(/[^a-zA-Z0-9._-]+/g, "-")`: every maximal run of characters
 * outside `[A-Za-z0-9._-]` becomes a single `-`; safe characters are kept
 * in order. Used for generated patch file names and re-upload object keys.
 */
module Sanitize {

  predicate IsSafe(c: char) {
    ('a' <= c <= 'z') || ('A' <= c <= 'Z') || ('0' <= c <= '9') || c == '.' || c == '_' || c == '-'
  }

  predicate AllSafe(s: string) {
    forall i :: 0 <= i < |s| ==> IsSafe(s[i])
  }

  predicate NoneSafe(s: string) {
    forall i :: 0 <= i < |s| ==> !IsSafe(s[i])
  }

  /** The length of the longest prefix of `s` made only of unsafe characters. */
  function UnsafeRunLength(s: string): (n: nat)
    ensures n <= |s|
    ensures forall i :: 0 <= i < n ==> !IsSafe(s[i])
    ensures n < |s| ==> IsSafe(s[n])
  {
    if s == [] || IsSafe(s[0]) then 0 else 1 + UnsafeRunLength(s[1..])
  }

  /** The regular-expression replacement, one leading character or unsafe run at a time. */
  function Sanitize(s: string): string
    decreases |s|
  {
    if s == [] then []
    else if IsSafe(s[0]) then [s[0]] + Sanitize(s[1..])
    else "-" + Sanitize(s[UnsafeRunLength(s)..])
  }

  /** The result holds only safe characters and is never longer than the input. */
  lemma {:induction false} SanitizeOutput(s: string)
    ensures AllSafe(Sanitize(s)) && |Sanitize(s)| <= |s|
    decreases |s|
  {
    if s != [] {
      if IsSafe(s[0]) {
        SanitizeOutput(s[1..]);
      } else {
        SanitizeOutput(s[UnsafeRunLength(s)..]);
      }
    }
  }

  /** A string of safe characters is left unchanged. */
  lemma {:induction false} SanitizeSafe(s: string)
    requires AllSafe(s)
    ensures Sanitize(s) == s
  {
    if s != [] {
      SanitizeSafe(s[1..]);
    }
  }

  /** Sanitizing is idempotent, and it changes a string exactly when the string holds an unsafe character. */
  lemma SanitizeIdempotent(s: string)
    ensures Sanitize(Sanitize(s)) == Sanitize(s)
    ensures Sanitize(s) == s <==> AllSafe(s)
  {
    SanitizeOutput(s);
    SanitizeSafe(Sanitize(s));
    if AllSafe(s) {
      SanitizeSafe(s);
    }
  }

  /** Only the empty string sanitises to the empty string. */
  lemma SanitizeEmptyIff(s: string)
    ensures Sanitize(s) == [] <==> s == []
  {
    if s != [] {
      if IsSafe(s[0]) {
        SanitizeSafeHead(s);
      } else {
        SanitizeUnsafeHead(s);
      }
    }
  }

  /** A non-empty run of unsafe characters collapses to exactly one dash. */
  lemma SanitizeUnsafeRun(s: string)
    requires s != [] && NoneSafe(s)
    ensures Sanitize(s) == "-"
  {
    assert s[..|s|] == s;
    assert UnsafeRunLength(s) == |s|;
  }

  /** The leading unsafe run of `a + b` ends inside `a`, or covers `a` and continues into `b`. */
  lemma UnsafeRunOfConcat(a: string, b: string)
    ensures UnsafeRunLength(a) < |a| ==> UnsafeRunLength(a + b) == UnsafeRunLength(a)
    ensures UnsafeRunLength(a) == |a| ==> UnsafeRunLength(a + b) == |a| + UnsafeRunLength(b)
  {
    var m, n := UnsafeRunLength(a), UnsafeRunLength(a + b);
    assert (a + b)[..m] == a[..m];
    if m < |a| {
      assert (a + b)[m] == a[m];
    } else {
      var k := UnsafeRunLength(b);
      assert (a + b)[..|a| + k] == a + b[..k];
      if |a| + k < |a + b| {
        assert (a + b)[|a| + k] == b[k];
      }
    }
  }

  /** How `Sanitize` reads a string that starts with an unsafe character. */
  lemma SanitizeUnsafeHead(s: string)
    requires s != [] && !IsSafe(s[0])
    ensures Sanitize(s) == "-" + Sanitize(s[UnsafeRunLength(s)..])
  {
  }

  /** How `Sanitize` reads a string that starts with a safe character. */
  lemma SanitizeSafeHead(s: string)
    requires s != [] && IsSafe(s[0])
    ensures Sanitize(s) == [s[0]] + Sanitize(s[1..])
  {
  }

  /**
   * Sanitizing distributes over concatenation at any cut that does not
   * split a run of unsafe characters: together with the single-character
   * and single-run cases above, this pins the replacement down completely.
   */
  lemma {:induction false} SanitizeConcat(a: string, b: string)
    requires a == [] || b == [] || IsSafe(a[|a| - 1]) || IsSafe(b[0])
    ensures Sanitize(a + b) == Sanitize(a) + Sanitize(b)
    decreases |a|, 2
  {
    if a == [] {
      assert a + b == b;
    } else if IsSafe(a[0]) {
      ConcatSafeHead(a, b);
    } else {
      ConcatUnsafeHead(a, b);
    }
  }

  lemma {:induction false} ConcatSafeHead(a: string, b: string)
    requires a != [] && IsSafe(a[0])
    requires b == [] || IsSafe(a[|a| - 1]) || IsSafe(b[0])
    ensures Sanitize(a + b) == Sanitize(a) + Sanitize(b)
    decreases |a|, 0
  {
    var t := a[1..];
    SafeHeadSplit(a, b);
    SanitizeConcat(t, b);
    SanitizeSafeHead(a);
    SanitizeSafeHead(a + b);
    Regroup([a[0]], Sanitize(t), Sanitize(b));
  }

  /** Splitting off a first character keeps the cut condition and the head of the concatenation. */
  lemma SafeHeadSplit(a: string, b: string)
    requires a != [] && IsSafe(a[0])
    requires b == [] || IsSafe(a[|a| - 1]) || IsSafe(b[0])
    ensures var t := a[1..];
      && (a + b)[1..] == t + b && (a + b)[0] == a[0]
      && (t == [] || b == [] || IsSafe(t[|t| - 1]) || IsSafe(b[0]))
  {
    assert (a + b)[1..] == a[1..] + b;
  }

  lemma {:induction false} ConcatUnsafeHead(a: string, b: string)
    requires a != [] && !IsSafe(a[0])
    requires b == [] || IsSafe(a[|a| - 1]) || IsSafe(b[0])
    ensures Sanitize(a + b) == Sanitize(a) + Sanitize(b)
    decreases |a|, 1
  {
    if UnsafeRunLength(a) < |a| {
      ConcatAfterRun(a, b);
    } else {
      UnsafeWhole(a, b);
    }
  }

  lemma {:induction false} ConcatAfterRun(a: string, b: string)
    requires a != [] && !IsSafe(a[0]) && UnsafeRunLength(a) < |a|
    requires b == [] || IsSafe(a[|a| - 1]) || IsSafe(b[0])
    ensures Sanitize(a + b) == Sanitize(a) + Sanitize(b)
    decreases |a|, 0
  {
    var t := a[UnsafeRunLength(a)..];
    RunRest(a);
    UnsafeSplit(a, b);
    SanitizeConcat(t, b);
    Regroup("-", Sanitize(t), Sanitize(b));
  }

  /** What is left after the leading unsafe run is shorter, non-empty, and ends like the whole. */
  lemma RunRest(a: string)
    requires a != [] && !IsSafe(a[0]) && UnsafeRunLength(a) < |a|
    ensures var t := a[UnsafeRunLength(a)..];
      0 < |t| < |a| && t[|t| - 1] == a[|a| - 1]
  {
  }

  /** Concatenation regrouped. */
  lemma Regroup(h: string, x: string, y: string)
    ensures h + (x + y) == (h + x) + y
  {
  }

  lemma UnsafeSplit(a: string, b: string)
    requires a != [] && !IsSafe(a[0]) && UnsafeRunLength(a) < |a|
    ensures var t := a[UnsafeRunLength(a)..];
      Sanitize(a) == "-" + Sanitize(t) && Sanitize(a + b) == "-" + Sanitize(t + b)
  {
    var m := UnsafeRunLength(a);
    UnsafeRunOfConcat(a, b);
    SanitizeUnsafeHead(a);
    assert (a + b)[0] == a[0];
    SanitizeUnsafeHead(a + b);
    assert (a + b)[m..] == a[m..] + b;
  }

  lemma UnsafeWhole(a: string, b: string)
    requires a != [] && !IsSafe(a[0]) && UnsafeRunLength(a) == |a|
    requires b == [] || IsSafe(a[|a| - 1]) || IsSafe(b[0])
    ensures Sanitize(a + b) == Sanitize(a) + Sanitize(b)
  {
    assert !IsSafe(a[|a| - 1]);
    WholeRunAlone(a);
    WholeRunBefore(a, b);
  }

  /** A string that is one run of unsafe characters sanitises to a single dash. */
  lemma WholeRunAlone(a: string)
    requires a != [] && !IsSafe(a[0]) && UnsafeRunLength(a) == |a|
    ensures Sanitize(a) == "-"
  {
    SanitizeUnsafeHead(a);
    assert a[|a|..] == [];
  }

  /** One run of unsafe characters before a safe character becomes one dash in front of the rest. */
  lemma WholeRunBefore(a: string, b: string)
    requires a != [] && !IsSafe(a[0]) && UnsafeRunLength(a) == |a|
    requires b == [] || IsSafe(b[0])
    ensures Sanitize(a + b) == "-" + Sanitize(b)
  {
    UnsafeRunOfConcat(a, b);
    assert (a + b)[0] == a[0];
    SanitizeUnsafeHead(a + b);
    assert (a + b)[|a|..] == b;
  }

}
