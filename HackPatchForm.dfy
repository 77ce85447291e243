/**
 * The "new version" form of a hack: the suggestion of the next version
 * label, the label and submit gates, the generated patch file name and the
 * form's state changes (patch-mode reset, submission).
 */
module HackPatchForm {
  import opened Types
  import opened Text
  import Sanitize

  // ---------------------------------------------------------------------
  // Next-version suggestion: the pattern
  //   ^([^0-9]*\s*)([0-9]+)(?:\.([0-9]+))?(?:\.([0-9]+))?([\s\S]*)$
  // ---------------------------------------------------------------------

  /** The capture groups of the pattern: prefix, major, optional minor, optional patch, suffix. */
  datatype VersionMatch = VersionMatch(
    prefix: string,
    major: string,
    minor: Option<string>,
    patch: Option<string>,
    suffix: string)

  /** An optional group as it appears in the text: a dot and its digits, or nothing. */
  function DotPart(g: Option<string>): string {
    if g.Some? then "." + g.value else ""
  }

  /** The text the groups were cut from. */
  function Joined(m: VersionMatch): string {
    m.prefix + m.major + DotPart(m.minor) + DotPart(m.patch) + m.suffix
  }

  predicate StartsWithDigit(s: string) {
    s != [] && IsDigit(s[0])
  }

  predicate StartsWithDotDigit(s: string) {
    |s| >= 2 && s[0] == '.' && IsDigit(s[1])
  }

  predicate IsNumeral(g: Option<string>) {
    g.Some? ==> g.value != [] && AllDigits(g.value)
  }

  /**
   * The match the pattern finds in `raw`. The groups spell `raw`; the prefix
   * has no digit; each numeric group is a non-empty digit run that stops
   * before a non-digit; the patch group is only present after a minor group;
   * an optional group is skipped only when the text cannot start it.
   */
  predicate IsPatternMatch(raw: string, m: VersionMatch) {
    && Joined(m) == raw
    && !HasDigit(m.prefix)
    && m.major != [] && AllDigits(m.major)
    && IsNumeral(m.minor) && IsNumeral(m.patch)
    && (m.patch.Some? ==> m.minor.Some?)
    && !StartsWithDigit(m.suffix)
    && (m.patch.None? ==> !StartsWithDotDigit(m.suffix))
  }

  /** Where the run of non-digits starting at `from` ends (`[^0-9]*`, greedy). */
  function NonDigitEnd(s: string, from: nat): (n: nat)
    requires from <= |s|
    ensures from <= n <= |s|
    ensures forall k :: from <= k < n ==> !IsDigit(s[k])
    ensures n < |s| ==> IsDigit(s[n])
    decreases |s| - from
  {
    if from == |s| || IsDigit(s[from]) then from else NonDigitEnd(s, from + 1)
  }

  /** Where the run of digits starting at `from` ends (`[0-9]+`, greedy). */
  function DigitEnd(s: string, from: nat): (n: nat)
    requires from <= |s|
    ensures from <= n <= |s|
    ensures forall k :: from <= k < n ==> IsDigit(s[k])
    ensures n < |s| ==> !IsDigit(s[n])
    decreases |s| - from
  {
    if from == |s| || !IsDigit(s[from]) then from else DigitEnd(s, from + 1)
  }

  predicate DotDigitAt(s: string, at: nat) {
    at + 1 < |s| && s[at] == '.' && IsDigit(s[at + 1])
  }

  /** `(?:\.([0-9]+))?` tried at `at`: the group it captures and where the match continues. */
  function DotGroup(s: string, at: nat): (r: (Option<string>, nat))
    requires at <= |s|
    ensures at <= r.1 <= |s|
  {
    if DotDigitAt(s, at) then
      var e := DigitEnd(s, at + 1);
      (Some(s[at + 1..e]), e)
    else
      (None, at)
  }

  /** `raw.match(pattern)`: `None` when the pattern does not match. */
  function MatchVersion(raw: string): Option<VersionMatch>
  {
    var p := NonDigitEnd(raw, 0);
    if p == |raw| then
      None
    else
      var d := DigitEnd(raw, p);
      var (minor, e1) := DotGroup(raw, d);
      var (patch, e2) := DotGroup(raw, e1);
      Some(VersionMatch(raw[..p], raw[p..d], minor, patch, raw[e2..]))
  }

  lemma NonDigitEndUnique(s: string, from: nat, n: nat)
    requires from <= n <= |s|
    requires forall k :: from <= k < n ==> !IsDigit(s[k])
    requires n < |s| ==> IsDigit(s[n])
    ensures NonDigitEnd(s, from) == n
  {
  }

  lemma DigitEndUnique(s: string, from: nat, n: nat)
    requires from <= n <= |s|
    requires forall k :: from <= k < n ==> IsDigit(s[k])
    requires n < |s| ==> !IsDigit(s[n])
    ensures DigitEnd(s, from) == n
  {
  }

  /** What an optional dot group consumes, and where it leaves the text. */
  lemma DotGroupSpan(s: string, at: nat)
    requires at <= |s|
    ensures var (g, e) := DotGroup(s, at);
      && IsNumeral(g) && DotPart(g) == s[at..e]
      && (g.None? ==> e == at && !DotDigitAt(s, at))
      && (g.Some? ==> e < |s| ==> !IsDigit(s[e]))
  {
    if DotDigitAt(s, at) {
      var e := DigitEnd(s, at + 1);
      assert s[at..e] == [s[at]] + s[at + 1..e];
    }
  }

  /** An optional dot group already known to sit at `at` is the one `DotGroup` finds there. */
  lemma DotGroupAt(s: string, at: nat, g: Option<string>)
    requires at + |DotPart(g)| <= |s| && s[at..at + |DotPart(g)|] == DotPart(g)
    requires IsNumeral(g)
    requires at + |DotPart(g)| < |s| ==> !IsDigit(s[at + |DotPart(g)|])
    requires g.None? ==> !DotDigitAt(s, at)
    ensures DotGroup(s, at) == (g, at + |DotPart(g)|)
  {
    if g.Some? {
      var e := at + |DotPart(g)|;
      assert s[at] == '.' && s[at + 1..e] == g.value;
      assert IsDigit(s[at + 1]) by {
        assert s[at + 1] == g.value[0];
      }
      forall k | at + 1 <= k < e ensures IsDigit(s[k]) {
        assert s[k] == g.value[k - at - 1];
      }
      DigitEndUnique(s, at + 1, e);
    }
  }

  /** The facts the pattern's groups rely on, read off the scan of `raw`. */
  lemma ScanFacts(raw: string)
    requires HasDigit(raw) || NonDigitEnd(raw, 0) < |raw|
    ensures NonDigitEnd(raw, 0) < |raw|
    ensures var p := NonDigitEnd(raw, 0);
      var d := DigitEnd(raw, p);
      var (minor, e1) := DotGroup(raw, d);
      var (patch, e2) := DotGroup(raw, e1);
      && MatchVersion(raw) == Some(VersionMatch(raw[..p], raw[p..d], minor, patch, raw[e2..]))
      && p < d
      && DotPart(minor) == raw[d..e1] && DotPart(patch) == raw[e1..e2]
      && IsNumeral(minor) && IsNumeral(patch)
      && (e2 < |raw| ==> !IsDigit(raw[e2]))
      && (patch.None? ==> e2 == e1 && !DotDigitAt(raw, e1))
      && (minor.None? ==> e1 == d && !DotDigitAt(raw, d))
  {
    var p := NonDigitEnd(raw, 0);
    var d := DigitEnd(raw, p);
    var (minor, e1) := DotGroup(raw, d);
    DotGroupSpan(raw, d);
    DotGroupSpan(raw, e1);
  }

  lemma SoundJoined(raw: string, p: nat, d: nat, e1: nat, e2: nat, m: VersionMatch)
    requires p <= d <= e1 <= e2 <= |raw|
    requires m.prefix == raw[..p] && m.major == raw[p..d] && m.suffix == raw[e2..]
    requires DotPart(m.minor) == raw[d..e1] && DotPart(m.patch) == raw[e1..e2]
    ensures Joined(m) == raw
  {
    assert raw == raw[..p] + raw[p..d] + raw[d..e1] + raw[e1..e2] + raw[e2..];
  }

  /** The prefix and major groups cut from the scan have the shape the pattern demands. */
  lemma SoundHead(raw: string, p: nat, d: nat, m: VersionMatch)
    requires p == NonDigitEnd(raw, 0) && p < d <= |raw| && d == DigitEnd(raw, p)
    requires m.prefix == raw[..p] && m.major == raw[p..d]
    ensures !HasDigit(m.prefix) && m.major != [] && AllDigits(m.major) && HasDigit(raw)
  {
    forall i | 0 <= i < |m.prefix| ensures !IsDigit(m.prefix[i]) {
      assert m.prefix[i] == raw[i];
    }
    forall i | 0 <= i < |m.major| ensures IsDigit(m.major[i]) {
      assert m.major[i] == raw[p + i];
    }
    assert IsDigit(raw[p]);
  }

  /** The suffix cut from the scan starts with neither a digit nor, when the patch group is absent, a dot and a digit. */
  lemma SoundTail(raw: string, e1: nat, e2: nat, m: VersionMatch)
    requires e1 <= e2 <= |raw| && m.suffix == raw[e2..]
    requires e2 < |raw| ==> !IsDigit(raw[e2])
    requires m.patch.None? ==> e2 == e1 && !DotDigitAt(raw, e1)
    ensures !StartsWithDigit(m.suffix)
    ensures m.patch.None? ==> !StartsWithDotDigit(m.suffix)
  {
    if m.suffix != [] {
      assert m.suffix[0] == raw[e2];
    }
    if m.patch.None? && |m.suffix| >= 2 {
      assert m.suffix[0] == raw[e1] && m.suffix[1] == raw[e1 + 1];
    }
  }

  /** The pattern matches exactly the strings with a digit, and what it returns is a match of the string. */
  lemma MatchVersionSound(raw: string)
    ensures MatchVersion(raw).None? <==> !HasDigit(raw)
    ensures MatchVersion(raw).Some? ==> IsPatternMatch(raw, MatchVersion(raw).value)
  {
    var p := NonDigitEnd(raw, 0);
    if p < |raw| {
      ScanFacts(raw);
      var m := MatchVersion(raw).value;
      var d := DigitEnd(raw, p);
      var e1 := DotGroup(raw, d).1;
      var e2 := DotGroup(raw, e1).1;
      SoundJoined(raw, p, d, e1, e2, m);
      SoundHead(raw, p, d, m);
      SoundTail(raw, e1, e2, m);
    } else {
      assert !HasDigit(raw) by {
        forall i | 0 <= i < |raw| ensures !IsDigit(raw[i]) {
        }
      }
    }
  }

  /** The slices of a joined match at the group boundaries are the groups. */
  lemma JoinedSlices(m: VersionMatch)
    ensures var raw := Joined(m);
      var p := |m.prefix|;
      var d := p + |m.major|;
      var e1 := d + |DotPart(m.minor)|;
      var e2 := e1 + |DotPart(m.patch)|;
      && e2 + |m.suffix| == |raw|
      && raw[..p] == m.prefix && raw[p..d] == m.major
      && raw[d..e1] == DotPart(m.minor) && raw[e1..e2] == DotPart(m.patch)
      && raw[e2..] == m.suffix
  {
  }

  /** The pattern has exactly one match: any match of `raw` is what `MatchVersion` returns. */
  lemma MatchVersionUnique(raw: string, m: VersionMatch)
    requires IsPatternMatch(raw, m)
    ensures MatchVersion(raw) == Some(m)
  {
    var p := |m.prefix|;
    var d := p + |m.major|;
    var e1 := d + |DotPart(m.minor)|;
    var e2 := e1 + |DotPart(m.patch)|;
    UniquePrefix(raw, m);
    UniqueMajor(raw, m);
    UniqueGroups(raw, m);
    MatchAt(raw, p, d, e1, e2, m.minor, m.patch);
    Reassemble(raw, m);
  }

  lemma UniqueGroups(raw: string, m: VersionMatch)
    requires IsPatternMatch(raw, m)
    ensures var d := |m.prefix| + |m.major|;
      var e1 := d + |DotPart(m.minor)|;
      var e2 := e1 + |DotPart(m.patch)|;
      e2 <= |raw| && DotGroup(raw, d) == (m.minor, e1) && DotGroup(raw, e1) == (m.patch, e2)
  {
    UniqueMinor(raw, m);
    UniquePatch(raw, m);
  }

  lemma UniqueMinor(raw: string, m: VersionMatch)
    requires IsPatternMatch(raw, m)
    ensures var d := |m.prefix| + |m.major|;
      d + |DotPart(m.minor)| <= |raw| && DotGroup(raw, d) == (m.minor, d + |DotPart(m.minor)|)
  {
    JoinedSlices(m);
    UniqueMajor(raw, m);
    DotGroupAt(raw, |m.prefix| + |m.major|, m.minor);
  }

  lemma UniquePatch(raw: string, m: VersionMatch)
    requires IsPatternMatch(raw, m)
    ensures var e1 := |m.prefix| + |m.major| + |DotPart(m.minor)|;
      e1 + |DotPart(m.patch)| <= |raw| && DotGroup(raw, e1) == (m.patch, e1 + |DotPart(m.patch)|)
  {
    JoinedSlices(m);
    UniqueMajor(raw, m);
    DotGroupAt(raw, |m.prefix| + |m.major| + |DotPart(m.minor)|, m.patch);
  }

  lemma Reassemble(raw: string, m: VersionMatch)
    requires IsPatternMatch(raw, m)
    ensures var p := |m.prefix|;
      var d := p + |m.major|;
      var e2 := d + |DotPart(m.minor)| + |DotPart(m.patch)|;
      e2 <= |raw| && VersionMatch(raw[..p], raw[p..d], m.minor, m.patch, raw[e2..]) == m
  {
    JoinedSlices(m);
  }

  /** `MatchVersion` unfolded at known scan positions. */
  lemma MatchAt(raw: string, p: nat, d: nat, e1: nat, e2: nat, minor: Option<string>, patch: Option<string>)
    requires p < |raw| && NonDigitEnd(raw, 0) == p
    requires p <= d <= |raw| && DigitEnd(raw, p) == d
    requires d <= e1 <= |raw| && DotGroup(raw, d) == (minor, e1)
    requires e1 <= e2 <= |raw| && DotGroup(raw, e1) == (patch, e2)
    ensures MatchVersion(raw) == Some(VersionMatch(raw[..p], raw[p..d], minor, patch, raw[e2..]))
  {
  }

  lemma UniquePrefix(raw: string, m: VersionMatch)
    requires IsPatternMatch(raw, m)
    ensures NonDigitEnd(raw, 0) == |m.prefix|
  {
    JoinedSlices(m);
    var p := |m.prefix|;
    forall k | 0 <= k < p ensures !IsDigit(raw[k]) {
      assert raw[k] == raw[..p][k];
    }
    assert IsDigit(raw[p]) by {
      assert raw[p] == raw[p..p + |m.major|][0];
    }
    NonDigitEndUnique(raw, 0, p);
  }

  lemma UniqueMajor(raw: string, m: VersionMatch)
    requires IsPatternMatch(raw, m)
    ensures var p := |m.prefix|;
      var d := p + |m.major|;
      var e1 := d + |DotPart(m.minor)|;
      var e2 := e1 + |DotPart(m.patch)|;
      && DigitEnd(raw, p) == d
      && (e1 < |raw| ==> !IsDigit(raw[e1]))
      && (e2 < |raw| ==> !IsDigit(raw[e2]))
      && (m.minor.None? ==> !DotDigitAt(raw, d))
      && (m.patch.None? ==> !DotDigitAt(raw, e1))
  {
    JoinedSlices(m);
    MajorEnd(raw, m);
    GroupEnds(raw, m);
  }

  /** In a match, the digit run starting after the prefix ends where the major group ends. */
  lemma MajorEnd(raw: string, m: VersionMatch)
    requires IsPatternMatch(raw, m)
    ensures DigitEnd(raw, |m.prefix|) == |m.prefix| + |m.major|
  {
    JoinedSlices(m);
    var p := |m.prefix|;
    var d := p + |m.major|;
    var e1 := d + |DotPart(m.minor)|;
    forall k | p <= k < d ensures IsDigit(raw[k]) {
      assert raw[k] == raw[p..d][k - p];
    }
    assert d < |raw| ==> !IsDigit(raw[d]) by {
      if d < |raw| {
        if m.minor.None? {
          assert raw[d..] == m.suffix;
        } else {
          assert raw[d] == raw[d..e1][0];
        }
      }
    }
    DigitEndUnique(raw, p, d);
  }

  /** In a match, no digit follows a group, and an absent group is not followed by a dot and a digit. */
  lemma GroupEnds(raw: string, m: VersionMatch)
    requires IsPatternMatch(raw, m)
    ensures var d := |m.prefix| + |m.major|;
      var e1 := d + |DotPart(m.minor)|;
      var e2 := e1 + |DotPart(m.patch)|;
      && (e1 < |raw| ==> !IsDigit(raw[e1]))
      && (e2 < |raw| ==> !IsDigit(raw[e2]))
      && (m.minor.None? ==> !DotDigitAt(raw, d))
      && (m.patch.None? ==> !DotDigitAt(raw, e1))
  {
    JoinedSlices(m);
    var d := |m.prefix| + |m.major|;
    var e1 := d + |DotPart(m.minor)|;
    var e2 := e1 + |DotPart(m.patch)|;
    assert e2 < |raw| ==> raw[e2] == m.suffix[0];
    assert e1 < |raw| ==> !IsDigit(raw[e1]) by {
      if e1 < |raw| {
        if m.patch.None? {
          assert raw[e1..] == m.suffix;
        } else {
          assert raw[e1] == raw[e1..e2][0];
        }
      }
    }
    assert m.minor.None? ==> !DotDigitAt(raw, d) by {
      if m.minor.None? {
        assert raw[d..] == m.suffix;
      }
    }
    assert m.patch.None? ==> !DotDigitAt(raw, e1) by {
      if m.patch.None? {
        assert raw[e1..] == m.suffix;
      }
    }
  }


  /** `parseInt(group || "0", 10)`: the value of a captured numeral, 0 for an absent group. */
  function GroupValue(g: Option<string>): nat
    requires IsNumeral(g)
  {
    if g.Some? then ParseDecimal(g.value) else 0
  }

  /** Prints `prefix + major.minor.patch + suffix` with the numbers in decimal. */
  function Render(prefix: string, major: nat, minor: nat, patch: nat, suffix: string): string {
    prefix + ShowNat(major) + "." + ShowNat(minor) + "." + ShowNat(patch) + suffix
  }

  /** The label proposed after the one matched by `m`: missing parts read as 0, the patch number goes up by one. */
  function NextVersion(m: VersionMatch): string
    requires IsNumeral(Some(m.major)) && IsNumeral(m.minor) && IsNumeral(m.patch)
  {
    Render(m.prefix, GroupValue(Some(m.major)), GroupValue(m.minor), GroupValue(m.patch) + 1, m.suffix)
  }

  /**
   * The suggestion effect: `Some(label)` when it calls `setVersion(label)`,
   * `None` when it returns early (the input already holds a label, there is
   * no current version, or the trimmed current version has no digit).
   */
  function SuggestedVersion(version: string, currentVersion: Option<string>): Option<string>
  {
    if Trim(version) != "" then None
    else if currentVersion.None? || currentVersion.value == "" then None
    else
      var raw := Trim(currentVersion.value);
      MatchVersionSound(raw);
      match MatchVersion(raw)
      case None => None
      case Some(m) => Some(NextVersion(m))
  }

  /** The label after the suggestion effect has run: the suggestion when one is made, else the label as it was. */
  function AfterSuggestion(version: string, currentVersion: Option<string>): string {
    match SuggestedVersion(version, currentVersion)
    case Some(v) => v
    case None => version
  }

  /** A suggestion is made exactly when the input is blank and the trimmed current version holds a digit. */
  lemma SuggestionWhen(version: string, currentVersion: Option<string>)
    ensures SuggestedVersion(version, currentVersion).Some? <==>
      Trim(version) == "" && currentVersion.Some? && HasDigit(Trim(currentVersion.value))
  {
    if currentVersion.Some? {
      MatchVersionSound(Trim(currentVersion.value));
    }
  }

  /** Printing then matching: a rendered label is matched with its three numerals and the same prefix and suffix. */
  lemma RenderMatches(prefix: string, major: nat, minor: nat, patch: nat, suffix: string)
    requires !HasDigit(prefix) && !StartsWithDigit(suffix)
    ensures MatchVersion(Render(prefix, major, minor, patch, suffix))
      == Some(VersionMatch(prefix, ShowNat(major), Some(ShowNat(minor)), Some(ShowNat(patch)), suffix))
  {
    var m := VersionMatch(prefix, ShowNat(major), Some(ShowNat(minor)), Some(ShowNat(patch)), suffix);
    RenderIsMatch(prefix, major, minor, patch, suffix);
    MatchVersionUnique(Render(prefix, major, minor, patch, suffix), m);
  }

  lemma RenderIsMatch(prefix: string, major: nat, minor: nat, patch: nat, suffix: string)
    requires !HasDigit(prefix) && !StartsWithDigit(suffix)
    ensures IsPatternMatch(Render(prefix, major, minor, patch, suffix),
      VersionMatch(prefix, ShowNat(major), Some(ShowNat(minor)), Some(ShowNat(patch)), suffix))
  {
    JoinedThree(prefix, ShowNat(major), ShowNat(minor), ShowNat(patch), suffix);
  }

  lemma JoinedThree(prefix: string, major: string, minor: string, patch: string, suffix: string)
    ensures Joined(VersionMatch(prefix, major, Some(minor), Some(patch), suffix))
      == prefix + major + "." + minor + "." + patch + suffix
  {
    assert DotPart(Some(minor)) + DotPart(Some(patch)) == "." + minor + "." + patch;
  }

  /**
   * The suggestion, matched again, keeps the prefix and the suffix, prints
   * major and minor without redundant leading zeros (an absent minor as
   * "0"), and carries the incremented patch number.
   */
  lemma SuggestionReparses(version: string, current: string, m: VersionMatch)
    requires Trim(version) == "" && IsPatternMatch(Trim(current), m)
    ensures SuggestedVersion(version, Some(current)).Some?
    ensures MatchVersion(SuggestedVersion(version, Some(current)).value) == Some(VersionMatch(
      m.prefix,
      StripLeadingZeros(m.major),
      Some(if m.minor.Some? then StripLeadingZeros(m.minor.value) else "0"),
      Some(ShowNat(GroupValue(m.patch) + 1)),
      m.suffix))
  {
    MatchVersionUnique(Trim(current), m);
    SuggestionIsNext(version, current, m);
    NextVersionMatch(m);
    CanonicalGroup(Some(m.major));
    CanonicalGroup(m.minor);
  }


  /** A suggestion is the label proposed after the match of the trimmed current version. */
  lemma SuggestionIsNext(version: string, current: string, m: VersionMatch)
    requires Trim(version) == "" && MatchVersion(Trim(current)) == Some(m)
    ensures IsPatternMatch(Trim(current), m)
    ensures SuggestedVersion(version, Some(current)) == Some(NextVersion(m))
  {
    var raw := Trim(current);
    MatchVersionSound(raw);
    assert raw != "";
    assert Trim("") == "";
    assert current != "";
    assert SuggestedVersion(version, Some(current)) == (match MatchVersion(raw) case None => None case Some(m') => Some(NextVersion(m')));
  }


  /** Printing the value of a group gives the group without redundant leading zeros, or "0" when it is absent. */
  lemma CanonicalGroup(g: Option<string>)
    requires IsNumeral(g)
    ensures ShowNat(GroupValue(g)) == if g.Some? then StripLeadingZeros(g.value) else "0"
  {
    if g.Some? {
      ShowParse(g.value);
    }
  }


  /** Matching the label proposed after `m` gives back its numbers in canonical decimal. */
  lemma NextVersionMatch(m: VersionMatch)
    requires !HasDigit(m.prefix) && !StartsWithDigit(m.suffix)
    requires IsNumeral(Some(m.major)) && IsNumeral(m.minor) && IsNumeral(m.patch)
    ensures MatchVersion(NextVersion(m)) == Some(VersionMatch(m.prefix,
      ShowNat(GroupValue(Some(m.major))), Some(ShowNat(GroupValue(m.minor))),
      Some(ShowNat(GroupValue(m.patch) + 1)), m.suffix))
  {
    RenderMatches(m.prefix, GroupValue(Some(m.major)), GroupValue(m.minor), GroupValue(m.patch) + 1, m.suffix);
  }

  /** The label proposed after a rendered label advances its patch number by one and keeps the rest. */
  lemma NextOfRendered(prefix: string, major: nat, minor: nat, patch: nat, suffix: string)
    ensures NextVersion(VersionMatch(prefix, ShowNat(major), Some(ShowNat(minor)), Some(ShowNat(patch)), suffix))
      == Render(prefix, major, minor, patch + 1, suffix)
  {
    GroupOfShow(major);
    GroupOfShow(minor);
    GroupOfShow(patch);
    NextVersionOf(VersionMatch(prefix, ShowNat(major), Some(ShowNat(minor)), Some(ShowNat(patch)), suffix), major, minor, patch);
  }

  /** A printed number, read back as a group, is a numeral with that value. */
  lemma GroupOfShow(n: nat)
    ensures IsNumeral(Some(ShowNat(n))) && GroupValue(Some(ShowNat(n))) == n
  {
    ParseShow(n);
  }

  lemma NextVersionOf(m: VersionMatch, major: nat, minor: nat, patch: nat)
    requires IsNumeral(Some(m.major)) && IsNumeral(m.minor) && IsNumeral(m.patch)
    requires GroupValue(Some(m.major)) == major && GroupValue(m.minor) == minor && GroupValue(m.patch) == patch
    ensures NextVersion(m) == Render(m.prefix, major, minor, patch + 1, m.suffix)
  {
  }


  /** With an empty input, a trimmed current version that matches is followed by the label after its match. */
  lemma SuggestFromMatch(current: string, m: VersionMatch)
    requires Trim(current) == current && MatchVersion(current) == Some(m)
    ensures SuggestedVersion("", Some(current)) == Some(NextVersion(m))
  {
    assert Trim("") == "";
  }

  /** A rendered label whose prefix and suffix do not start or end in whitespace is left alone by `trim`. */
  lemma RenderTrimmed(prefix: string, major: nat, minor: nat, patch: nat, suffix: string)
    requires prefix != [] ==> !IsWhitespace(prefix[0])
    requires suffix != [] ==> !IsWhitespace(suffix[|suffix| - 1])
    ensures Trim(Render(prefix, major, minor, patch, suffix)) == Render(prefix, major, minor, patch, suffix)
  {
    var s := Render(prefix, major, minor, patch, suffix);
    var head := prefix + ShowNat(major);
    var tail := ShowNat(patch) + suffix;
    assert s == head + ("." + ShowNat(minor) + ".") + tail;
    assert s[0] == head[0];
    assert s[|s| - 1] == tail[|tail| - 1];
    if prefix == [] {
      assert head[0] == ShowNat(major)[0];
    }
    if suffix == [] {
      assert tail[|tail| - 1] == ShowNat(patch)[|ShowNat(patch)| - 1];
    }
    TrimUnchanged(s);
  }

  /** The outer groups of a match in a trimmed string do not start or end in whitespace. */
  lemma TrimmedGroups(text: string, m: VersionMatch)
    requires Joined(m) == Trim(text)
    ensures m.prefix != [] ==> !IsWhitespace(m.prefix[0])
    ensures m.suffix != [] ==> !IsWhitespace(m.suffix[|m.suffix| - 1])
  {
    TrimEnds(text);
    OuterGroups(m.prefix, m.major + DotPart(m.minor) + DotPart(m.patch), m.suffix);
  }

  lemma OuterGroups(prefix: string, mid: string, suffix: string)
    requires var s := prefix + mid + suffix; s != [] ==> !IsWhitespace(s[0]) && !IsWhitespace(s[|s| - 1])
    ensures prefix != [] ==> !IsWhitespace(prefix[0])
    ensures suffix != [] ==> !IsWhitespace(suffix[|suffix| - 1])
  {
    var s := prefix + mid + suffix;
    if prefix != [] {
      assert s[0] == prefix[0];
    }
    if suffix != [] {
      assert s[|s| - 1] == suffix[|suffix| - 1];
    }
  }

  /** Taking the suggestion as the next current version, the following suggestion advances the patch number once more. */
  lemma SuggestionAdvances(current: string, m: VersionMatch)
    requires IsPatternMatch(Trim(current), m)
    ensures var major, minor, patch := GroupValue(Some(m.major)), GroupValue(m.minor), GroupValue(m.patch);
      var s := Render(m.prefix, major, minor, patch + 1, m.suffix);
      && SuggestedVersion("", Some(current)) == Some(s)
      && SuggestedVersion("", Some(s)) == Some(Render(m.prefix, major, minor, patch + 2, m.suffix))
  {
    AdvanceFirst(current, m);
    AdvanceSecond(current, m);
  }

  /** The first step of `SuggestionAdvances`: the suggestion for the matched current version. */
  lemma AdvanceFirst(current: string, m: VersionMatch)
    requires IsPatternMatch(Trim(current), m)
    ensures SuggestedVersion("", Some(current))
      == Some(Render(m.prefix, GroupValue(Some(m.major)), GroupValue(m.minor), GroupValue(m.patch) + 1, m.suffix))
  {
    MatchVersionUnique(Trim(current), m);
    SuggestionIsNext("", current, m);
  }

  /** The second step of `SuggestionAdvances`: the suggestion after the suggested label. */
  lemma AdvanceSecond(current: string, m: VersionMatch)
    requires IsPatternMatch(Trim(current), m)
    ensures var major, minor, patch := GroupValue(Some(m.major)), GroupValue(m.minor), GroupValue(m.patch);
      SuggestedVersion("", Some(Render(m.prefix, major, minor, patch + 1, m.suffix)))
      == Some(Render(m.prefix, major, minor, patch + 2, m.suffix))
  {
    TrimmedGroups(current, m);
    SuggestAfterRendered(m.prefix, GroupValue(Some(m.major)), GroupValue(m.minor), GroupValue(m.patch) + 1, m.suffix);
  }

  /** A rendered label, taken as the current version, is followed by the same label with the next patch number. */
  lemma SuggestAfterRendered(prefix: string, major: nat, minor: nat, patch: nat, suffix: string)
    requires !HasDigit(prefix) && !StartsWithDigit(suffix)
    requires prefix != [] ==> !IsWhitespace(prefix[0])
    requires suffix != [] ==> !IsWhitespace(suffix[|suffix| - 1])
    ensures SuggestedVersion("", Some(Render(prefix, major, minor, patch, suffix)))
      == Some(Render(prefix, major, minor, patch + 1, suffix))
  {
    var s := Render(prefix, major, minor, patch, suffix);
    RenderTrimmed(prefix, major, minor, patch, suffix);
    RenderMatches(prefix, major, minor, patch, suffix);
    SuggestFromMatch(s, VersionMatch(prefix, ShowNat(major), Some(ShowNat(minor)), Some(ShowNat(patch)), suffix));
    NextOfRendered(prefix, major, minor, patch, suffix);
  }

  // ---------------------------------------------------------------------
  // Label and submit gates
  // ---------------------------------------------------------------------

  /** `isVersionTaken`: the trimmed input is non-blank and is exactly one of the existing labels. */
  predicate IsVersionTaken(version: string, existing: seq<string>) {
    Trim(version) != "" && Trim(version) in existing
  }

  /**
   * `canSubmit`: a non-blank label, a patch (a chosen file in BPS mode, a
   * finished generation in ROM mode), a label not yet taken and no
   * submission under way.
   */
  predicate CanSubmit(version: string, patchFile: Option<string>, mode: PatchMode, genStatus: GenStatus,
                      existing: seq<string>, submitting: bool) {
    && Trim(version) != ""
    && ((patchFile.Some? && mode == Bps) || (mode == Rom && genStatus == Ready))
    && !IsVersionTaken(version, existing)
    && !submitting
  }

  /** A label that passes the submit gate is non-blank and new to this hack. */
  lemma SubmittedLabelIsNew(version: string, patchFile: Option<string>, mode: PatchMode, genStatus: GenStatus,
                            existing: seq<string>, submitting: bool)
    requires CanSubmit(version, patchFile, mode, genStatus, existing, submitting)
    ensures Trim(version) != "" && Trim(version) !in existing
    ensures forall e :: e in existing ==> e != Trim(version)
  {
  }

  /** Surrounding whitespace does not help a label past the taken check, and a taken label never passes the gate. */
  lemma TakenBlocksSubmit(version: string, patchFile: Option<string>, mode: PatchMode, genStatus: GenStatus,
                          existing: seq<string>, submitting: bool)
    requires Trim(version) in existing
    ensures Trim(version) != "" ==> IsVersionTaken(version, existing)
    ensures !CanSubmit(version, patchFile, mode, genStatus, existing, submitting)
  {
  }

  // ---------------------------------------------------------------------
  // Patch generation from a modified ROM: threshold and file name
  // ---------------------------------------------------------------------

  /** The largest base ROM (4 MiB) for which the BPS patch is built in delta mode. */
  const DeltaModeLimit: nat := 4194304

  /** Delta mode is used exactly for base ROMs of at most 4 MiB. */
  predicate DeltaMode(baseSize: nat) {
    baseSize <= DeltaModeLimit
  }

  /** Delta mode is on up to 4 MiB and off above it, and a smaller base ROM never loses it. */
  lemma DeltaModeThreshold(small: nat, large: nat)
    requires small <= large
    ensures DeltaMode(4 * 1024 * 1024) && !DeltaMode(4 * 1024 * 1024 + 1)
    ensures DeltaMode(large) ==> DeltaMode(small)
  {
  }

  /** The base name of a generated patch: the slug, a dash, and the sanitised label (or "patch" when none is typed). */
  function PatchBaseName(slug: string, version: string): string {
    slug + "-" + Sanitize.Sanitize(if version == "" then "patch" else version)
  }

  /** The generated file's name: the base name with the `.bps` extension. */
  function PatchFileName(slug: string, version: string): string {
    PatchBaseName(slug, version) + ".bps"
  }

  /**
   * The generated name starts with the slug and a dash, the rest is a
   * non-empty run of file-name-safe characters no longer than the label,
   * and a label that is already safe is kept as it is.
   */
  lemma PatchBaseNameShape(slug: string, version: string)
    ensures var r := PatchBaseName(slug, version);
      var tag := if version == "" then "patch" else version;
      && r[..|slug| + 1] == slug + "-"
      && r[|slug| + 1..] != []
      && Sanitize.AllSafe(r[|slug| + 1..])
      && |r| <= |slug| + 1 + |tag|
      && (Sanitize.AllSafe(tag) <==> r[|slug| + 1..] == tag)
  {
    var tag := if version == "" then "patch" else version;
    var r := PatchBaseName(slug, version);
    assert r[|slug| + 1..] == Sanitize.Sanitize(tag);
    Sanitize.SanitizeOutput(tag);
    Sanitize.SanitizeEmptyIff(tag);
    Sanitize.SanitizeIdempotent(tag);
  }

  /** With no label typed the patch is named after the slug: "<slug>-patch". */
  lemma PatchBaseNameDefault(slug: string)
    ensures PatchBaseName(slug, "") == slug + "-patch"
  {
    Sanitize.SanitizeSafe("patch");
  }

  const NoBaseMessage: string := "Base ROM not available."
  const HashMismatchMessage: string := "Selected base ROM hash does not match the chosen base ROM."
  const GenerateFailure: string := "Failed to generate patch."

  /**
   * `onUploadModifiedRom` of the form: `mod` is the chosen modified ROM,
   * `baseRomId` the hack's base ROM (empty when missing), `stored` what the
   * browser storage holds for it, `expectedSha1` the table's digest (empty
   * when absent), `hash` the digest of the stored file, `build` the error the
   * patch builder threw (`None` when it succeeded) and `file` the patch file
   * chosen so far.
   */
  function GenerateRun(slug: string, version: string, baseRomId: string, mod: Option<string>,
                       stored: Outcome<Option<string>>, expectedSha1: string, hash: Outcome<string>,
                       build: Option<string>, file: Option<string>): Generation
  {
    if mod.None? || baseRomId == "" then Generation(Idle, "", file)
    else
      match stored
      case Threw(msg) => Generation(Failed, OrDefault(msg, GenerateFailure), file)
      case Returned(b) =>
        if b.None? then Generation(Idle, NoBaseMessage, file)
        else if expectedSha1 != "" && hash.Threw? then Generation(Failed, OrDefault(hash.message, GenerateFailure), file)
        else if expectedSha1 != "" && Lower(hash.value) != Lower(expectedSha1) then
          Generation(Failed, HashMismatchMessage, file)
        else
          match build
          case Some(msg) => Generation(Failed, OrDefault(msg, GenerateFailure), file)
          case None => Generation(Ready, "", Some(PatchFileName(slug, version)))
  }

  /**
   * Generation never stays generating; it replaces the patch file only when
   * ready, with the generated name; a failure always explains itself; and a
   * missing base ROM is the one case that ends idle with a message.
   */
  lemma GenerateSpec(slug: string, version: string, baseRomId: string, mod: Option<string>,
                     stored: Outcome<Option<string>>, expectedSha1: string, hash: Outcome<string>,
                     build: Option<string>, file: Option<string>)
    ensures var r := GenerateRun(slug, version, baseRomId, mod, stored, expectedSha1, hash, build, file);
      && r.status != Generating
      && (r.status == Ready <==>
            mod.Some? && baseRomId != "" && stored.Returned? && stored.value.Some?
            && (expectedSha1 != "" ==> hash.Returned? && Lower(hash.value) == Lower(expectedSha1))
            && build.None?)
      && (r.status == Ready ==> r.file == Some(PatchFileName(slug, version)) && r.error == "")
      && (r.status != Ready ==> r.file == file)
      && (r.status == Failed ==> r.error != "")
      && (r.status == Idle && r.error != "" <==>
            mod.Some? && baseRomId != "" && stored == Returned(None))
  {
  }

  /** A finished generation makes the form in ROM mode submittable exactly when the label is non-blank and new. */
  lemma GeneratedSubmittable(slug: string, version: string, baseRomId: string, mod: Option<string>,
                             stored: Outcome<Option<string>>, expectedSha1: string, hash: Outcome<string>,
                             build: Option<string>, file: Option<string>, existing: seq<string>)
    requires GenerateRun(slug, version, baseRomId, mod, stored, expectedSha1, hash, build, file).status == Ready
    ensures var r := GenerateRun(slug, version, baseRomId, mod, stored, expectedSha1, hash, build, file);
      CanSubmit(version, r.file, Rom, r.status, existing, false) <==> Trim(version) != "" && Trim(version) !in existing
  {
  }

  const NoMatchMessage: string := "That ROM doesn't match any supported base ROM."

  /**
   * `onUploadBaseRom` of the form, which only reports: `matched` is the
   * identifier the storage recognises the file as (empty for none) and
   * `baseRomName` the name of the hack's base ROM, printed `undefined` when
   * the table has no entry.
   */
  function ImportMessage(f: Option<string>, matched: Outcome<string>, baseRomId: string,
                         baseRomName: Option<string>): string
  {
    if f.None? then ""
    else
      match matched
      case Threw(_) => "Failed to import base ROM."
      case Returned(id) =>
        if id == "" then NoMatchMessage
        else if id != baseRomId then
          "This ROM matches \"" + id + "\", but this hack requires \""
          + (if baseRomName.Some? then baseRomName.value else "undefined") + "\"."
        else ""
  }

  /** The form reports nothing exactly when no file was chosen or the file is the hack's own base ROM. */
  lemma ImportMessageSpec(f: Option<string>, matched: Outcome<string>, baseRomId: string, baseRomName: Option<string>)
    ensures ImportMessage(f, matched, baseRomId, baseRomName) == "" <==>
      f.None? || (matched.Returned? && matched.value != "" && matched.value == baseRomId)
  {
  }

  // ---------------------------------------------------------------------
  // Submission: presign, upload, confirm
  // ---------------------------------------------------------------------

  /** The reply of `presignNewPatchVersion`; an empty `error` stands for a missing one. */
  datatype PresignReply = PresignReply(ok: bool, error: string, presignedUrl: string, objectKey: string)

  /** The reply of `confirmPatchUpload`. */
  datatype ConfirmReply = ConfirmReply(ok: bool, error: string, redirectTo: string)

  /** The outside calls a submission makes, in the order made. */
  datatype Call =
    | Presign(slug: string, version: string)
    | Put(url: string)
    | Confirm(slug: string, objectKey: string, version: string, publishAutomatically: bool)

  /** The visible effect of a submission: the calls made, the error shown and the page navigated to. */
  datatype Submission = Submission(calls: seq<Call>, error: string, redirect: Option<string>)

  /**
   * A submission of the label `trimmed`, given what each awaited call does. The status
   * of the PUT response (`put`'s value) is not looked at: only an exception
   * from `fetch` stops the sequence.
   */
  function SubmitRun(slug: string, trimmed: string, publish: bool, presign: Outcome<PresignReply>,
                     put: Outcome<bool>, confirm: Outcome<ConfirmReply>): Submission
  {
    var first := [Presign(slug, trimmed)];
    match presign
    case Threw(msg) => Submission(first, OrDefault(msg, "Upload failed"), None)
    case Returned(p) =>
      if !p.ok then Submission(first, OrDefault(p.error, "Failed to presign"), None)
      else
        var second := first + [Put(p.presignedUrl)];
        match put
        case Threw(msg) => Submission(second, OrDefault(msg, "Upload failed"), None)
        case Returned(_) =>
          var third := second + [Confirm(slug, p.objectKey, trimmed, publish)];
          match confirm
          case Threw(msg) => Submission(third, OrDefault(msg, "Upload failed"), None)
          case Returned(c) =>
            if !c.ok then Submission(third, OrDefault(c.error, "Failed to finalize"), None)
            else Submission(third, "", Some(c.redirectTo))
  }

  /** The calls of a submission are a prefix of presign, upload, confirm, all with the same trimmed and key. */
  predicate InOrder(calls: seq<Call>, slug: string, trimmed: string) {
    && 1 <= |calls| <= 3
    && calls[0] == Presign(slug, trimmed)
    && (|calls| >= 2 ==> calls[1].Put?)
    && (|calls| == 3 ==> calls[2].Confirm? && calls[2].slug == slug && calls[2].version == trimmed)
  }

  /**
   * Presign always comes first; the upload happens exactly when presign
   * answered ok; confirmation happens exactly when, in addition, the upload
   * did not throw, and it uses the object key presign handed out.
   */
  lemma SubmitOrder(slug: string, trimmed: string, publish: bool, presign: Outcome<PresignReply>,
                    put: Outcome<bool>, confirm: Outcome<ConfirmReply>)
    ensures var r := SubmitRun(slug, trimmed, publish, presign, put, confirm);
      && InOrder(r.calls, slug, trimmed)
      && (|r.calls| >= 2 <==> presign.Returned? && presign.value.ok)
      && (|r.calls| == 3 <==> presign.Returned? && presign.value.ok && put.Returned?)
      && (|r.calls| == 3 ==>
            r.calls[1] == Put(presign.value.presignedUrl) && r.calls[2] == Confirm(slug, presign.value.objectKey, trimmed, publish))
  {
  }

  /**
   * The page moves on exactly when all three steps succeed, to the address
   * confirmation gave; otherwise an error is always shown.
   */
  lemma SubmitVerdict(slug: string, trimmed: string, publish: bool, presign: Outcome<PresignReply>,
                      put: Outcome<bool>, confirm: Outcome<ConfirmReply>)
    ensures var r := SubmitRun(slug, trimmed, publish, presign, put, confirm);
      && (r.redirect.Some? <==>
          presign.Returned? && presign.value.ok && put.Returned? && confirm.Returned? && confirm.value.ok)
      && (r.redirect.Some? ==> r.redirect.value == confirm.value.redirectTo && r.error == "")
      && (r.redirect.None? ==> r.error != "")
  {
  }

  /** The status of the upload response makes no difference to a submission. */
  lemma PutStatusIgnored(slug: string, trimmed: string, publish: bool, presign: Outcome<PresignReply>,
                         confirm: Outcome<ConfirmReply>)
    ensures SubmitRun(slug, trimmed, publish, presign, Returned(true), confirm)
         == SubmitRun(slug, trimmed, publish, presign, Returned(false), confirm)
  {
  }

  /**
   * The awaited calls of a submission, one after the other, stopping at the
   * first failure: the calls made, the message for the error line (empty on
   * success) and the address to go to.
   */
  method Exchange(slug: string, trimmed: string, publish: bool, presign: Outcome<PresignReply>,
                  put: Outcome<bool>, confirm: Outcome<ConfirmReply>)
    returns (calls: seq<Call>, message: string, target: Option<string>)
    ensures Submission(calls, message, target) == SubmitRun(slug, trimmed, publish, presign, put, confirm)
  {
    calls := [Presign(slug, trimmed)];
    message := "";
    target := None;
    match presign {
      case Threw(msg) =>
        message := OrDefault(msg, "Upload failed");
      case Returned(p) =>
        if !p.ok {
          message := OrDefault(p.error, "Failed to presign");
        } else {
          calls := calls + [Put(p.presignedUrl)];
          match put {
            case Threw(msg) =>
              message := OrDefault(msg, "Upload failed");
            case Returned(_) =>
              calls := calls + [Confirm(slug, p.objectKey, trimmed, publish)];
              match confirm {
                case Threw(msg) =>
                  message := OrDefault(msg, "Upload failed");
                case Returned(c) =>
                  if !c.ok {
                    message := OrDefault(c.error, "Failed to finalize");
                  } else {
                    target := Some(c.redirectTo);
                  }
              }
          }
        }
    }
  }

  /** The state of the "new version" form. */
  class PatchForm {
    const slug: string
    const baseRomId: string
    const entry: Option<BaseRomEntry>
    const existingVersions: seq<string>
    var currentVersion: Option<string>
    var version: string
    var patchMode: PatchMode
    var patchFile: Option<string>
    var genStatus: GenStatus
    var genError: string
    var submitting: bool
    var error: string
    var publishAutomatically: bool
    var redirect: Option<string>

    /** Between events no submission is under way. */
    predicate Valid()
      reads this
    {
      !submitting
    }

    /** `canSubmit` over the current state. */
    predicate Submittable()
      reads this
    {
      CanSubmit(version, patchFile, patchMode, genStatus, existingVersions, submitting)
    }

    /** The first render: empty fields, BPS mode, then the suggestion effect fills in the label. */
    constructor (slug: string, baseRomId: string, entry: Option<BaseRomEntry>, existingVersions: seq<string>,
                 currentVersion: Option<string>)
      ensures Valid()
      ensures this.slug == slug && this.baseRomId == baseRomId && this.entry == entry
      ensures this.existingVersions == existingVersions && this.currentVersion == currentVersion
      ensures version == AfterSuggestion("", currentVersion)
      ensures patchMode == Bps && patchFile == None && genStatus == Idle && genError == ""
      ensures error == "" && !publishAutomatically && redirect == None
    {
      this.slug := slug;
      this.baseRomId := baseRomId;
      this.entry := entry;
      this.existingVersions := existingVersions;
      this.currentVersion := currentVersion;
      version := AfterSuggestion("", currentVersion);
      patchMode := Bps;
      patchFile := None;
      genStatus := Idle;
      genError := "";
      submitting := false;
      error := "";
      publishAutomatically := false;
      redirect := None;
    }

    /** A new `currentVersion` prop reruns the suggestion effect; the same value does not. */
    method CurrentVersionChanged(cv: Option<string>)
      modifies this
      ensures currentVersion == cv
      ensures version == if cv != old(currentVersion) then AfterSuggestion(old(version), cv) else old(version)
      ensures patchMode == old(patchMode) && patchFile == old(patchFile) && genStatus == old(genStatus)
      ensures genError == old(genError) && submitting == old(submitting) && error == old(error)
      ensures publishAutomatically == old(publishAutomatically) && redirect == old(redirect)
    {
      if cv != currentVersion {
        var next := AfterSuggestion(version, cv);
        currentVersion := cv;
        version := next;
      }
    }

    /** Typing into the label field replaces the label; nothing else changes. */
    method SetVersion(text: string)
      modifies this
      ensures version == text
      ensures currentVersion == old(currentVersion) && patchMode == old(patchMode) && patchFile == old(patchFile)
      ensures genStatus == old(genStatus) && genError == old(genError) && submitting == old(submitting)
      ensures error == old(error) && publishAutomatically == old(publishAutomatically) && redirect == old(redirect)
    {
      version := text;
    }

    /**
     * Choosing a `.bps` file, or clearing the choice; the file input is only
     * shown in BPS mode. The form can then be submitted exactly when a file
     * is chosen and the label is non-blank and new.
     */
    method SetPatchFile(f: Option<string>)
      requires patchMode == Bps
      modifies this
      ensures patchFile == f
      ensures Submittable() <==> f.Some? && Trim(version) != "" && !IsVersionTaken(version, existingVersions) && !submitting
      ensures currentVersion == old(currentVersion) && version == old(version) && patchMode == old(patchMode)
      ensures genStatus == old(genStatus) && genError == old(genError) && submitting == old(submitting)
      ensures error == old(error) && publishAutomatically == old(publishAutomatically) && redirect == old(redirect)
    {
      patchFile := f;
    }

    /** Ticking or clearing "Publish Automatically"; nothing else changes. */
    method SetPublish(b: bool)
      modifies this
      ensures publishAutomatically == b
      ensures currentVersion == old(currentVersion) && version == old(version) && patchMode == old(patchMode)
      ensures patchFile == old(patchFile) && genStatus == old(genStatus) && genError == old(genError)
      ensures submitting == old(submitting) && error == old(error) && redirect == old(redirect)
    {
      publishAutomatically := b;
    }

    /** Choosing a patch mode; a change of mode clears the file, the generation status and its error. */
    method SetPatchMode(mode: PatchMode)
      modifies this
      ensures patchMode == mode
      ensures mode != old(patchMode) ==> patchFile == None && genStatus == Idle && genError == ""
      ensures mode == old(patchMode) ==> patchFile == old(patchFile) && genStatus == old(genStatus) && genError == old(genError)
      ensures currentVersion == old(currentVersion) && version == old(version) && submitting == old(submitting)
      ensures error == old(error) && publishAutomatically == old(publishAutomatically) && redirect == old(redirect)
    {
      if mode != patchMode {
        patchMode := mode;
        patchFile := None;
        genStatus := Idle;
        genError := "";
      }
    }

    /** `onUploadBaseRom`: only the generation error changes, to `ImportMessage`. */
    method OnUploadBaseRom(f: Option<string>, matched: Outcome<string>)
      modifies this
      ensures genError == ImportMessage(f, matched, baseRomId, if entry.Some? then Some(entry.value.name) else None)
      ensures currentVersion == old(currentVersion) && version == old(version) && patchMode == old(patchMode)
      ensures patchFile == old(patchFile) && genStatus == old(genStatus) && submitting == old(submitting)
      ensures error == old(error) && publishAutomatically == old(publishAutomatically) && redirect == old(redirect)
    {
      genError := "";
      if f.None? {
        return;
      }
      match matched {
        case Threw(_) =>
          genError := "Failed to import base ROM.";
        case Returned(id) =>
          if id == "" {
            genError := NoMatchMessage;
          } else if id != baseRomId {
            var name := if entry.Some? then entry.value.name else "undefined";
            genError := "This ROM matches \"" + id + "\", but this hack requires \"" + name + "\".";
          }
      }
    }

    /** `onUploadModifiedRom`: the generation status, its message and the patch file become `GenerateRun`'s. */
    method OnUploadModifiedRom(mod: Option<string>, stored: Outcome<Option<string>>, hash: Outcome<string>,
                               build: Option<string>)
      modifies this
      ensures var g := GenerateRun(slug, version, baseRomId, mod, stored, if entry.Some? then entry.value.sha1 else "",
                                   hash, build, old(patchFile));
        genStatus == g.status && genError == g.error && patchFile == g.file
      ensures currentVersion == old(currentVersion) && version == old(version) && patchMode == old(patchMode)
      ensures submitting == old(submitting) && error == old(error)
      ensures publishAutomatically == old(publishAutomatically) && redirect == old(redirect)
    {
      genStatus := Generating;
      genError := "";
      if mod.None? || baseRomId == "" {
        genStatus := Idle;
        return;
      }
      var base;
      match stored {
        case Threw(msg) =>
          genStatus := Failed;
          genError := OrDefault(msg, GenerateFailure);
          return;
        case Returned(b) =>
          base := b;
      }
      if base.None? {
        genStatus := Idle;
        genError := NoBaseMessage;
        return;
      }
      var expected := if entry.Some? then entry.value.sha1 else "";
      if expected != "" {
        match hash {
          case Threw(msg) =>
            genStatus := Failed;
            genError := OrDefault(msg, GenerateFailure);
            return;
          case Returned(h) =>
            if Lower(h) != Lower(expected) {
              genStatus := Failed;
              genError := HashMismatchMessage;
              return;
            }
        }
      }
      match build {
        case Some(msg) =>
          genStatus := Failed;
          genError := OrDefault(msg, GenerateFailure);
        case None =>
          patchFile := Some(PatchFileName(slug, version));
          genStatus := Ready;
      }
    }

    /**
     * `onSubmit`: nothing happens unless the form can be submitted;
     * otherwise the trimmed label goes through presign, upload and confirm
     * as `SubmitRun` describes, and the form ends up not submitting.
     */
    method OnSubmit(presign: Outcome<PresignReply>, put: Outcome<bool>, confirm: Outcome<ConfirmReply>)
      returns (calls: seq<Call>)
      modifies this
      ensures !old(Submittable()) ==> calls == [] && unchanged(this)
      ensures old(Submittable()) ==>
        var r := SubmitRun(slug, Trim(version), publishAutomatically, presign, put, confirm);
        calls == r.calls && error == r.error && redirect == (if r.redirect.Some? then r.redirect else old(redirect))
      ensures old(Submittable()) ==> Valid()
      ensures currentVersion == old(currentVersion) && version == old(version) && patchMode == old(patchMode)
      ensures patchFile == old(patchFile) && genStatus == old(genStatus) && genError == old(genError)
      ensures publishAutomatically == old(publishAutomatically)
    {
      if !Submittable() {
        return [];
      }
      submitting := true;
      error := "";
      var message, target;
      calls, message, target := Exchange(slug, Trim(version), publishAutomatically, presign, put, confirm);
      error := message;
      if target.Some? {
        redirect := target;
      }
      submitting := false;
    }
  }
}
