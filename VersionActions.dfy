/**
 * The controls beside one patch version: which actions it is offered, the
 * object key of a re-uploaded patch file, the checksum verdict on a chosen
 * `.bps` file, patch generation from a modified ROM, the server actions
 * behind the confirmation dialogs and the presign, upload, confirm
 * sequence of a re-upload.
 */
module VersionActions {
  import opened Types
  import opened Text
  import Sanitize

  // ---------------------------------------------------------------------
  // Which actions a patch is offered
  // ---------------------------------------------------------------------

  /** `isNewerThanCurrent`: created strictly after the current patch; never when there is no current patch time. */
  predicate IsNewerThanCurrent(p: Patch, currentCreatedAt: Option<int>) {
    match currentCreatedAt
    case None => false
    case Some(t) => p.createdAt > t
  }

  /** `shouldShowRollback`: not the current patch, and not an unpublished patch newer than the current one. */
  predicate ShouldShowRollback(p: Patch, isCurrent: bool, currentCreatedAt: Option<int>) {
    !isCurrent && !(!p.published && IsNewerThanCurrent(p, currentCreatedAt))
  }

  /** Without a current patch time nothing is newer; equal times are not newer; otherwise newer is strictly later. */
  lemma NewerThanCurrent(p: Patch, currentCreatedAt: Option<int>)
    ensures currentCreatedAt.None? ==> !IsNewerThanCurrent(p, currentCreatedAt)
    ensures currentCreatedAt == Some(p.createdAt) ==> !IsNewerThanCurrent(p, currentCreatedAt)
    ensures IsNewerThanCurrent(p, currentCreatedAt) <==>
      currentCreatedAt.Some? && p.createdAt > currentCreatedAt.value
  {
  }

  /**
   * Rollback is offered exactly to a patch that is not current and is
   * published, or is not later than the current patch, or when there is no
   * current patch time.
   */
  lemma RollbackRule(p: Patch, isCurrent: bool, currentCreatedAt: Option<int>)
    ensures ShouldShowRollback(p, isCurrent, currentCreatedAt) <==>
      !isCurrent && (p.published || currentCreatedAt.None? || p.createdAt <= currentCreatedAt.value)
  {
  }

  /** The buttons beside a version; `Archive` is the source's "delete" dialog. */
  datatype Action = Publish | Download | Reupload | Rollback | Archive | Restore

  /** The order in which the buttons are laid out. */
  const Layout: seq<Action> := [Publish, Download, Reupload, Rollback, Archive, Restore]

  /** Whether one action is offered, decided for that action alone. */
  predicate Offers(a: Action, p: Patch, isCurrent: bool, currentCreatedAt: Option<int>) {
    match a
    case Publish => !p.archived && !p.published
    case Download => true
    case Reupload => !p.archived
    case Rollback => !p.archived && ShouldShowRollback(p, isCurrent, currentCreatedAt)
    case Archive => !p.archived && !isCurrent
    case Restore => p.archived
  }

  /** The actions of `order` that are offered, in that order. */
  function Offered(order: seq<Action>, p: Patch, isCurrent: bool, currentCreatedAt: Option<int>): seq<Action> {
    if order == [] then []
    else
      var head := if Offers(order[0], p, isCurrent, currentCreatedAt) then [order[0]] else [];
      head + Offered(order[1..], p, isCurrent, currentCreatedAt)
  }

  /** The desktop buttons: Download and Restore for an archived patch, otherwise the lifecycle buttons. */
  function Toolbar(p: Patch, isCurrent: bool, currentCreatedAt: Option<int>): seq<Action> {
    if p.archived then [Download, Restore]
    else
      (if !p.published then [Publish] else [])
      + [Download, Reupload]
      + (if ShouldShowRollback(p, isCurrent, currentCreatedAt) then [Rollback] else [])
      + (if !isCurrent then [Archive] else [])
  }

  /** The mobile menu, whose Rollback and Archive entries sit in one group of their own. */
  function Menu(p: Patch, isCurrent: bool, currentCreatedAt: Option<int>): seq<Action> {
    if p.archived then [Download, Restore]
    else
      (if !p.published then [Publish] else [])
      + [Download, Reupload]
      + (if !isCurrent || ShouldShowRollback(p, isCurrent, currentCreatedAt) then
           (if ShouldShowRollback(p, isCurrent, currentCreatedAt) then [Rollback] else [])
           + (if !isCurrent then [Archive] else [])
         else [])
  }

  /** The toolbar shows exactly the offered actions, in layout order. */
  lemma ToolbarLayout(p: Patch, isCurrent: bool, currentCreatedAt: Option<int>)
    ensures Toolbar(p, isCurrent, currentCreatedAt) == Offered(Layout, p, isCurrent, currentCreatedAt)
  {
    LayoutPieces(p, isCurrent, currentCreatedAt);
    if p.archived {
      assert Offered(Layout, p, isCurrent, currentCreatedAt) == [Download] + [Restore];
    } else {
      var roll := if ShouldShowRollback(p, isCurrent, currentCreatedAt) then [Rollback] else [];
      var arch := if !isCurrent then [Archive] else [];
      var publish := if !p.published then [Publish] else [];
      assert Offered(Layout, p, isCurrent, currentCreatedAt) == publish + ([Download] + ([Reupload] + (roll + (arch + []))));
      assert arch + [] == arch;
    }
  }

  /** The layout filtered action by action, as one concatenation. */
  lemma LayoutPieces(p: Patch, isCurrent: bool, currentCreatedAt: Option<int>)
    ensures Offered(Layout, p, isCurrent, currentCreatedAt)
      == Pick(Publish, p, isCurrent, currentCreatedAt) + (Pick(Download, p, isCurrent, currentCreatedAt)
         + (Pick(Reupload, p, isCurrent, currentCreatedAt) + (Pick(Rollback, p, isCurrent, currentCreatedAt)
         + (Pick(Archive, p, isCurrent, currentCreatedAt) + Pick(Restore, p, isCurrent, currentCreatedAt)))))
  {
    var l5: seq<Action> := [Restore];
    var l4 := [Archive] + l5;
    var l3 := [Rollback] + l4;
    var l2 := [Reupload] + l3;
    var l1 := [Download] + l2;
    assert Layout == [Publish] + l1;
    OfferedCons(Publish, l1, p, isCurrent, currentCreatedAt);
    OfferedCons(Download, l2, p, isCurrent, currentCreatedAt);
    OfferedCons(Reupload, l3, p, isCurrent, currentCreatedAt);
    OfferedCons(Rollback, l4, p, isCurrent, currentCreatedAt);
    OfferedCons(Archive, l5, p, isCurrent, currentCreatedAt);
    OfferedCons(Restore, [], p, isCurrent, currentCreatedAt);
    assert Pick(Restore, p, isCurrent, currentCreatedAt) + [] == Pick(Restore, p, isCurrent, currentCreatedAt);
  }

  /** The one-action part of the filtered layout. */
  function Pick(a: Action, p: Patch, isCurrent: bool, currentCreatedAt: Option<int>): seq<Action> {
    if Offers(a, p, isCurrent, currentCreatedAt) then [a] else []
  }

  /** One step of `Offered`. */
  lemma OfferedCons(a: Action, rest: seq<Action>, p: Patch, isCurrent: bool, currentCreatedAt: Option<int>)
    ensures Offered([a] + rest, p, isCurrent, currentCreatedAt)
      == Pick(a, p, isCurrent, currentCreatedAt) + Offered(rest, p, isCurrent, currentCreatedAt)
  {
    assert ([a] + rest)[1..] == rest;
  }

  /** The mobile menu offers the same actions as the toolbar, in the same order. */
  lemma MenuMatchesToolbar(p: Patch, isCurrent: bool, currentCreatedAt: Option<int>)
    ensures Menu(p, isCurrent, currentCreatedAt) == Toolbar(p, isCurrent, currentCreatedAt)
  {
  }

  /** An action is in `Offered(order, …)` exactly when it is in `order` and offered. */
  lemma {:induction false} OfferedMembers(order: seq<Action>, p: Patch, isCurrent: bool, currentCreatedAt: Option<int>)
    ensures forall a :: a in Offered(order, p, isCurrent, currentCreatedAt) <==>
      a in order && Offers(a, p, isCurrent, currentCreatedAt)
  {
    if order != [] {
      OfferedMembers(order[1..], p, isCurrent, currentCreatedAt);
      assert forall a :: a in order <==> a == order[0] || a in order[1..];
    }
  }

  /** No action appears twice. */
  predicate Distinct(s: seq<Action>) {
    forall i, j :: 0 <= i < j < |s| ==> s[i] != s[j]
  }

  /** Filtering a sequence without repeats gives one without repeats. */
  lemma {:induction false} OfferedDistinct(order: seq<Action>, p: Patch, isCurrent: bool, currentCreatedAt: Option<int>)
    requires Distinct(order)
    ensures Distinct(Offered(order, p, isCurrent, currentCreatedAt))
  {
    if order != [] {
      var rest := Offered(order[1..], p, isCurrent, currentCreatedAt);
      OfferedDistinct(order[1..], p, isCurrent, currentCreatedAt);
      OfferedMembers(order[1..], p, isCurrent, currentCreatedAt);
      assert order[0] !in rest;
      if Offers(order[0], p, isCurrent, currentCreatedAt) {
        var t := [order[0]] + rest;
        assert Offered(order, p, isCurrent, currentCreatedAt) == t;
        forall i, j | 0 <= i < j < |t|
          ensures t[i] != t[j]
        {
          assert t[j] == rest[j - 1] && rest[j - 1] in rest;
          if 0 < i {
            assert t[i] == rest[i - 1];
          }
        }
      } else {
        assert Offered(order, p, isCurrent, currentCreatedAt) == rest;
      }
    }
  }

  /** The toolbar holds each offered action once and nothing else. */
  lemma ToolbarOffers(p: Patch, isCurrent: bool, currentCreatedAt: Option<int>)
    ensures var t := Toolbar(p, isCurrent, currentCreatedAt);
      && (forall a :: a in t <==> Offers(a, p, isCurrent, currentCreatedAt))
      && Distinct(t)
  {
    ToolbarLayout(p, isCurrent, currentCreatedAt);
    OfferedMembers(Layout, p, isCurrent, currentCreatedAt);
    OfferedDistinct(Layout, p, isCurrent, currentCreatedAt);
  }

  /**
   * An archived patch gets only Download and Restore; otherwise Publish
   * appears exactly when unpublished, Archive exactly when not current, and
   * Download and Re-upload always; the current patch never gets Archive or
   * Rollback.
   */
  lemma ToolbarRules(p: Patch, isCurrent: bool, currentCreatedAt: Option<int>)
    ensures var t := Toolbar(p, isCurrent, currentCreatedAt);
      && (p.archived ==> forall a :: a in t <==> a == Download || a == Restore)
      && (!p.archived ==> (Publish in t <==> !p.published) && (Archive in t <==> !isCurrent))
      && (!p.archived ==> Download in t && Reupload in t && Restore !in t)
      && (isCurrent ==> Archive !in t && Rollback !in t)
  {
  }

  // ---------------------------------------------------------------------
  // The object key of a re-uploaded patch
  // ---------------------------------------------------------------------

  /** The key the re-uploaded file is stored under, stamped with `Date.now()`. */
  function ObjectKey(slug: string, version: string, now: nat): string {
    slug + "-" + Sanitize.Sanitize(version) + "-reupload-" + ShowNat(now) + ".bps"
  }

  /** The parts of a key: the slug and a dash, the middle, and `.bps`. */
  lemma KeyParts(slug: string, safe: string, stamp: string)
    ensures var k := slug + "-" + safe + "-reupload-" + stamp + ".bps";
      && |k| == |slug| + 1 + |safe| + 10 + |stamp| + 4
      && k[..|slug| + 1] == slug + "-"
      && k[|slug| + 1..|k| - 4] == safe + "-reupload-" + stamp
      && k[|k| - 4..] == ".bps"
  {
    var k := slug + "-" + safe + "-reupload-" + stamp + ".bps";
    assert k == (slug + "-") + (safe + "-reupload-" + stamp) + ".bps";
  }

  /** The key is the slug, a dash, then only characters of `[A-Za-z0-9._-]`, ending in `.bps`. */
  lemma ObjectKeyShape(slug: string, version: string, now: nat)
    ensures var k := ObjectKey(slug, version, now);
      && |slug| + 1 < |k| - 4
      && k[..|slug| + 1] == slug + "-"
      && k[|k| - 4..] == ".bps"
      && Sanitize.AllSafe(k[|slug|..])
  {
    var s := Sanitize.Sanitize(version);
    var t := ShowNat(now);
    Sanitize.SanitizeOutput(version);
    KeyParts(slug, s, t);
    var k := ObjectKey(slug, version, now);
    var mid := s + "-reupload-" + t;
    assert k[|slug|..] == "-" + mid + ".bps";
    assert Sanitize.AllSafe(mid) by {
      forall i | 0 <= i < |mid|
        ensures Sanitize.IsSafe(mid[i])
      {
        if i < |s| {
          assert mid[i] == s[i];
        } else if 10 + |s| <= i {
          assert mid[i] == t[i - 10 - |s|];
        }
      }
    }
  }

  /**
   * In two equal joins around a separator ending in a non-digit, each
   * followed by digits, the first digit tail is not the shorter one.
   */
  lemma DigitTailLength(x1: string, t1: string, x2: string, t2: string, m: string)
    requires x1 + m + t1 == x2 + m + t2
    requires AllDigits(t1) && AllDigits(t2)
    requires m != [] && !IsDigit(m[|m| - 1])
    ensures |t2| <= |t1|
  {
    var w := x1 + m + t1;
    var k := |w| - 1 - |t1|;
    assert w[k] == m[|m| - 1];
  }

  /** Two equal joins around a separator ending in a non-digit, each followed by digits, split the same way. */
  lemma SplitAtDigits(x1: string, t1: string, x2: string, t2: string, m: string)
    requires x1 + m + t1 == x2 + m + t2
    requires AllDigits(t1) && AllDigits(t2)
    requires m != [] && !IsDigit(m[|m| - 1])
    ensures x1 == x2 && t1 == t2
  {
    DigitTailLength(x1, t1, x2, t2, m);
    DigitTailLength(x2, t2, x1, t1, m);
    var w := x1 + m + t1;
    var w2 := x2 + m + t2;
    assert t1 == w[|w| - |t1|..];
    assert t2 == w2[|w2| - |t2|..];
    assert x1 == w[..|x1|];
    assert x2 == w2[..|x2|];
  }

  /**
   * For one hack, two re-upload keys are equal exactly when the versions
   * sanitise alike and the timestamps are equal: the timestamp can be read
   * back from the key.
   */
  lemma ObjectKeyInjective(slug: string, v1: string, n1: nat, v2: string, n2: nat)
    ensures ObjectKey(slug, v1, n1) == ObjectKey(slug, v2, n2) <==>
      Sanitize.Sanitize(v1) == Sanitize.Sanitize(v2) && n1 == n2
  {
    var s1, s2 := Sanitize.Sanitize(v1), Sanitize.Sanitize(v2);
    var t1, t2 := ShowNat(n1), ShowNat(n2);
    if ObjectKey(slug, v1, n1) == ObjectKey(slug, v2, n2) {
      KeyParts(slug, s1, t1);
      KeyParts(slug, s2, t2);
      SplitAtDigits(s1, t1, s2, t2, "-reupload-");
      ShowNatInjective(n1, n2);
    }
  }

  // ---------------------------------------------------------------------
  // The checksum verdict on a chosen .bps file
  // ---------------------------------------------------------------------

  /** The checksum state of the re-upload dialog; `Unchecked` and `Verified` are the source's `"idle"` and `"valid"`. */
  datatype ChecksumStatus = Unchecked | Validating | Verified | Invalid | Unknown

  /** Where `onUploadPatch` leaves the checksum status, its message and the chosen file. */
  datatype Verdict = Verdict(status: ChecksumStatus, error: string, file: Option<string>)

  const NoChecksumMessage: string :=
    "A checksum is not available to validate this patch file. Proceed at your own risk, or upload your modified ROM instead."
  const MismatchMessage: string :=
    "Checksum validation failed. The patch file is not compatible with the selected base ROM."
  const ValidateFailure: string := "Failed to validate patch file."

  /**
   * `onUploadPatch`: `file` is the chosen file, `baseCrc` the base ROM's
   * checksum (`None` when the base ROM is not in the table) and `source` the
   * source checksum the BPS reader finds (`None` for `undefined`), or what it threw.
   */
  function ChecksumVerdict(file: Option<string>, baseCrc: Option<int>, source: Outcome<Option<int>>): Verdict {
    match file
    case None => Verdict(Unchecked, "", None)
    case Some(f) =>
      if baseCrc.None? then Verdict(Unknown, NoChecksumMessage, file)
      else
        match source
        case Threw(msg) => Verdict(Unknown, OrDefault(msg, ValidateFailure), None)
        case Returned(sc) =>
          if sc.None? || sc.value == 0 then Verdict(Unknown, NoChecksumMessage, file)
          else if sc.value != baseCrc.value then Verdict(Invalid, MismatchMessage, None)
          else Verdict(Verified, "", file)
  }

  /**
   * The five outcomes: no file leaves nothing to check; a missing base
   * checksum or patch checksum keeps the file as unknown; a different
   * checksum clears it as invalid; an equal one keeps it as valid; a failure
   * to read clears it as unknown. A kept file is always the chosen one, and a
   * message is shown exactly when the verdict is neither valid nor unchecked.
   */
  lemma VerdictCases(file: Option<string>, baseCrc: Option<int>, source: Outcome<Option<int>>)
    ensures var v := ChecksumVerdict(file, baseCrc, source);
      && (v.status == Unchecked <==> file.None?)
      && (v.status == Verified <==>
            file.Some? && baseCrc.Some? && source.Returned? && source.value == Some(baseCrc.value) && baseCrc.value != 0)
      && (v.status == Invalid <==>
            file.Some? && baseCrc.Some? && source.Returned? && source.value.Some?
            && source.value.value != 0 && source.value.value != baseCrc.value)
      && (v.file.Some? ==> v.file == file)
      && (v.file.Some? <==> v.status == Verified || (v.status == Unknown && (baseCrc.None? || source.Returned?)))
      && v.status != Validating
      && (v.error == "" <==> v.status == Verified || v.status == Unchecked)
  {
  }

  /** `disabled` of the Upload button: busy, no file, or an invalid checksum. */
  predicate UploadBlocked(loading: bool, file: Option<string>, status: ChecksumStatus) {
    loading || file.None? || status == Invalid
  }

  /** Right after a verdict, Upload is available exactly when the verdict kept a file. */
  lemma VerdictUnblocks(file: Option<string>, baseCrc: Option<int>, source: Outcome<Option<int>>)
    ensures var v := ChecksumVerdict(file, baseCrc, source);
      !UploadBlocked(false, v.file, v.status) <==> v.file.Some?
  {
  }

  // ---------------------------------------------------------------------
  // Base ROM import and patch generation from a modified ROM
  // ---------------------------------------------------------------------

  /** Where `onUploadBaseRom` leaves the generation error and the chosen base ROM file. */
  datatype Import = Import(error: string, baseRomFile: Option<string>)

  const NoMatchMessage: string := "That ROM doesn't match any supported base ROM."
  const ImportFailure: string := "Failed to import base ROM."

  /**
   * `onUploadBaseRom` for the hack's base ROM `baseRom` (an identifier,
   * empty when missing): `matched` is the identifier the storage recognises
   * the file as (empty for none), `matchedName` its name in the base-ROM
   * table and `entryName` the name of the hack's own base ROM (empty when
   * it has no entry).
   */
  function ImportRun(baseRom: string, f: Option<string>, matched: Outcome<string>, matchedName: Option<string>,
                     entryName: string, baseRomFile: Option<string>): Import
  {
    if f.None? || baseRom == "" then Import("", baseRomFile)
    else
      match matched
      case Threw(_) => Import(ImportFailure, None)
      case Returned(id) =>
        if id == "" then Import(NoMatchMessage, baseRomFile)
        else if id != baseRom then
          Import("This ROM matches \"" + (if matchedName.Some? then matchedName.value else id)
                 + "\", but the form requires \"" + OrDefault(entryName, baseRom) + "\".", baseRomFile)
        else Import("", f)
  }

  /**
   * A base ROM file is taken exactly when it is recognised as the hack's own
   * base ROM, and then no error is left; a failure to import drops the file
   * chosen before; every other refusal keeps it and explains itself.
   */
  lemma ImportSpec(baseRom: string, f: Option<string>, matched: Outcome<string>, matchedName: Option<string>,
                   entryName: string, baseRomFile: Option<string>)
    ensures var r := ImportRun(baseRom, f, matched, matchedName, entryName, baseRomFile);
      var accepted := f.Some? && baseRom != "" && matched == Returned(baseRom);
      && (accepted ==> r == Import("", f))
      && (!accepted && f.Some? && baseRom != "" ==> r.error != "")
      && (r.baseRomFile != baseRomFile ==> accepted || (r.baseRomFile.None? && matched.Threw?))
      && (f.None? || baseRom == "" ==> r == Import("", baseRomFile))
  {
  }

  const NoBaseMessage: string := "Base ROM not available. Please upload the base ROM first."
  const HashMismatchMessage: string := "Selected base ROM hash does not match the chosen base ROM."
  const GenerateFailure: string := "Failed to generate patch."

  /** The name of a generated patch file: the slug as it is, or `patch`. */
  function GeneratedName(slug: string): string {
    OrDefault(slug, "patch") + ".bps"
  }

  /**
   * `onUploadModifiedRom`: `mod` is the chosen modified ROM, `baseRomFile`
   * the base ROM chosen in the dialog, `stored` what the browser storage
   * holds for `baseRom` (asked only when none was chosen), `expectedSha1`
   * the table's digest (empty when absent), `hash` the digest of the base
   * file, `build` the error the patch builder threw (`None` when it
   * succeeded) and `file` the file chosen so far.
   */
  function GenerateRun(slug: string, baseRom: string, mod: Option<string>, baseRomFile: Option<string>,
                       stored: Outcome<Option<string>>, expectedSha1: string, hash: Outcome<string>,
                       build: Option<string>, file: Option<string>): Generation
  {
    if mod.None? || baseRom == "" then Generation(Idle, "", file)
    else
      var base := if baseRomFile.Some? then Returned(baseRomFile) else stored;
      match base
      case Threw(msg) => Generation(Failed, OrDefault(msg, GenerateFailure), file)
      case Returned(b) =>
        if b.None? then Generation(Failed, NoBaseMessage, file)
        else if expectedSha1 != "" && hash.Threw? then Generation(Failed, OrDefault(hash.message, GenerateFailure), file)
        else if expectedSha1 != "" && Lower(hash.value) != Lower(expectedSha1) then
          Generation(Failed, HashMismatchMessage, file)
        else
          match build
          case Some(msg) => Generation(Failed, OrDefault(msg, GenerateFailure), file)
          case None => Generation(Ready, "", Some(GeneratedName(slug)))
  }

  /**
   * Generation ends idle exactly when there is no modified ROM or base ROM,
   * never stays generating, replaces the chosen file only when ready (with a
   * `.bps` named after the slug), and leaves a message exactly when it failed.
   */
  lemma GenerateSpec(slug: string, baseRom: string, mod: Option<string>, baseRomFile: Option<string>,
                     stored: Outcome<Option<string>>, expectedSha1: string, hash: Outcome<string>,
                     build: Option<string>, file: Option<string>)
    ensures var r := GenerateRun(slug, baseRom, mod, baseRomFile, stored, expectedSha1, hash, build, file);
      && (r.status == Idle <==> mod.None? || baseRom == "")
      && r.status != Generating
      && (r.status == Ready ==> r.file == Some(GeneratedName(slug)) && build.None?)
      && (r.status != Ready ==> r.file == file)
      && (r.error != "" <==> r.status == Failed)
  {
  }

  /**
   * The steps run in order: without a base ROM neither the digest nor the
   * builder matters, and without a digest in the table the base file's
   * digest is never looked at.
   */
  lemma GenerateOrder(slug: string, baseRom: string, mod: Option<string>,
                      stored: Outcome<Option<string>>, expectedSha1: string, hash: Outcome<string>, hash2: Outcome<string>,
                      build: Option<string>, build2: Option<string>, file: Option<string>)
    ensures mod.Some? && baseRom != "" && stored == Returned(None) ==>
      GenerateRun(slug, baseRom, mod, None, stored, expectedSha1, hash, build, file) == Generation(Failed, NoBaseMessage, file)
    ensures expectedSha1 == "" ==>
      GenerateRun(slug, baseRom, mod, None, stored, expectedSha1, hash, build, file)
      == GenerateRun(slug, baseRom, mod, None, stored, expectedSha1, hash2, build, file)
  {
  }

  // ---------------------------------------------------------------------
  // Server actions behind the dialogs
  // ---------------------------------------------------------------------

  /** The reply of a server action: `ok`, or an error (empty for a missing one). */
  datatype Reply = Reply(ok: bool, error: string)

  /** The reply of `getPatchDownloadUrl`. */
  datatype LinkReply = LinkReply(ok: bool, error: string, url: string)

  /** The reply of `reuploadPatchVersion`. */
  datatype UrlReply = UrlReply(ok: bool, error: string, presignedUrl: string)

  /** The dialogs whose confirm button calls a server action on the version. */
  predicate IsLifecycle(a: Action) {
    a == Publish || a == Rollback || a == Archive || a == Restore
  }

  /** The alert shown when a lifecycle action fails without a message of its own. */
  function FailureMessage(a: Action): string {
    if a == Publish then "Failed to publish version"
    else if a == Rollback then "Failed to rollback version"
    else if a == Archive then "Failed to archive version"
    else "Failed to restore version"
  }

  /** What a lifecycle action leaves behind: the dialog closed, the list told to reload, an alert. */
  datatype Settled = Settled(closed: bool, completed: bool, alert: Option<string>)

  /** `handlePublish`, `handleRollback`, `handleDelete` and `handleRestore`. */
  function ActionRun(a: Action, reply: Outcome<Reply>): Settled {
    match reply
    case Threw(_) => Settled(false, false, Some(FailureMessage(a)))
    case Returned(r) =>
      if r.ok then Settled(true, true, None)
      else Settled(false, false, Some(OrDefault(r.error, FailureMessage(a))))
  }

  /**
   * The dialog closes and the list reloads together, exactly when the
   * server answered ok; otherwise a non-empty alert is shown, and the
   * message of a thrown error is never the one shown.
   */
  lemma ActionRunSpec(a: Action, reply: Outcome<Reply>, m1: string, m2: string)
    ensures var s := ActionRun(a, reply);
      && (s.closed <==> reply.Returned? && reply.value.ok)
      && s.completed == s.closed
      && (s.alert.None? <==> s.closed)
      && (s.alert.Some? ==> s.alert.value != "")
    ensures ActionRun(a, Threw(m1)) == ActionRun(a, Threw(m2))
  {
  }

  /** What a download leaves behind: a window opened on an address, or an alert. */
  datatype Fetched = Opened(url: string) | Alerted(message: string)

  /** `handleDownload`. */
  function DownloadRun(reply: Outcome<LinkReply>): Fetched {
    match reply
    case Threw(_) => Alerted("Failed to download patch")
    case Returned(r) =>
      if r.ok then Opened(r.url) else Alerted(OrDefault(r.error, "Failed to generate download URL"))
  }

  /** A window opens, on the address given, exactly when the server answered ok; otherwise a non-empty alert. */
  lemma DownloadSpec(reply: Outcome<LinkReply>)
    ensures var d := DownloadRun(reply);
      && (d.Opened? <==> reply.Returned? && reply.value.ok)
      && (d.Opened? ==> d.url == reply.value.url)
      && (d.Alerted? ==> d.message != "")
  {
  }

  // ---------------------------------------------------------------------
  // Re-upload: presign, upload, confirm
  // ---------------------------------------------------------------------

  /** The outside calls of a re-upload, in the order made. */
  datatype Call =
    | Presign(slug: string, patchId: int, objectKey: string)
    | Put(url: string, file: string)
    | Confirm(slug: string, patchId: int, objectKey: string)

  /** The visible effect of a re-upload: the calls made, the error shown, and whether it went through. */
  datatype Attempt = Attempt(calls: seq<Call>, error: Option<string>, done: bool)

  const SelectFileMessage: string := "Please select a file"
  const ReuploadFailure: string := "Failed to re-upload patch"

  /**
   * `handleReupload` of version `p` with the chosen `file` at time `now`,
   * given what each awaited call does; `put` is the `ok` of the upload
   * response.
   */
  function ReuploadRun(slug: string, p: Patch, file: Option<string>, now: nat, presign: Outcome<UrlReply>,
                       put: Outcome<bool>, confirm: Outcome<Reply>): Attempt
  {
    match file
    case None => Attempt([], Some(SelectFileMessage), false)
    case Some(f) =>
      var key := ObjectKey(slug, p.version, now);
      var first := [Presign(slug, p.id, key)];
      match presign
      case Threw(msg) => Attempt(first, Some(OrDefault(msg, ReuploadFailure)), false)
      case Returned(u) =>
        if !u.ok then Attempt(first, Some(OrDefault(u.error, "Failed to get upload URL")), false)
        else
          var second := first + [Put(u.presignedUrl, f)];
          match put
          case Threw(msg) => Attempt(second, Some(OrDefault(msg, ReuploadFailure)), false)
          case Returned(ok) =>
            if !ok then Attempt(second, Some("Failed to upload file"), false)
            else
              var third := second + [Confirm(slug, p.id, key)];
              match confirm
              case Threw(msg) => Attempt(third, Some(OrDefault(msg, ReuploadFailure)), false)
              case Returned(c) =>
                if c.ok then Attempt(third, None, true)
                else Attempt(third, Some(OrDefault(c.error, "Failed to confirm upload")), false)
  }

  /**
   * Without a file nothing is called. Otherwise presign comes first, under
   * the object key of the version at `now`; the upload of the chosen file to
   * the presigned address happens exactly when presign answered ok; and
   * confirmation, under the same key, exactly when the upload response was
   * ok as well.
   */
  lemma ReuploadOrder(slug: string, p: Patch, file: Option<string>, now: nat, presign: Outcome<UrlReply>,
                      put: Outcome<bool>, confirm: Outcome<Reply>)
    ensures var r := ReuploadRun(slug, p, file, now, presign, put, confirm);
      && (file.None? ==> r.calls == [] && r.error == Some(SelectFileMessage))
      && (file.Some? ==> 1 <= |r.calls| <= 3 && r.calls[0] == Presign(slug, p.id, ObjectKey(slug, p.version, now)))
      && (|r.calls| >= 2 <==> file.Some? && presign.Returned? && presign.value.ok)
      && (|r.calls| == 3 <==> file.Some? && presign.Returned? && presign.value.ok && put == Returned(true))
      && (|r.calls| >= 2 ==> r.calls[1] == Put(presign.value.presignedUrl, file.value))
      && (|r.calls| == 3 ==> r.calls[2] == Confirm(slug, p.id, ObjectKey(slug, p.version, now)))
  {
  }

  /**
   * A re-upload goes through exactly when every step succeeds, and then no
   * error is shown; every other run shows a non-empty error.
   */
  lemma ReuploadVerdict(slug: string, p: Patch, file: Option<string>, now: nat, presign: Outcome<UrlReply>,
                        put: Outcome<bool>, confirm: Outcome<Reply>)
    ensures var r := ReuploadRun(slug, p, file, now, presign, put, confirm);
      && (r.done <==>
            file.Some? && presign.Returned? && presign.value.ok && put == Returned(true)
            && confirm.Returned? && confirm.value.ok)
      && (r.done <==> r.error.None?)
      && (r.error.Some? ==> r.error.value != "")
  {
  }

  /**
   * The awaited calls of a re-upload of `f`, one after the other, stopping
   * at the first failure: the calls made, the error to show and whether it
   * went through.
   */
  method Transfer(slug: string, p: Patch, f: string, now: nat, presign: Outcome<UrlReply>,
                  put: Outcome<bool>, confirm: Outcome<Reply>)
    returns (calls: seq<Call>, message: Option<string>, done: bool)
    ensures Attempt(calls, message, done) == ReuploadRun(slug, p, Some(f), now, presign, put, confirm)
  {
    var key := ObjectKey(slug, p.version, now);
    calls := [Presign(slug, p.id, key)];
    message := None;
    done := false;
    match presign {
      case Threw(msg) =>
        message := Some(OrDefault(msg, ReuploadFailure));
      case Returned(u) =>
        if !u.ok {
          message := Some(OrDefault(u.error, "Failed to get upload URL"));
        } else {
          calls := calls + [Put(u.presignedUrl, f)];
          match put {
            case Threw(msg) =>
              message := Some(OrDefault(msg, ReuploadFailure));
            case Returned(ok) =>
              if !ok {
                message := Some("Failed to upload file");
              } else {
                calls := calls + [Confirm(slug, p.id, key)];
                match confirm {
                  case Threw(msg) =>
                    message := Some(OrDefault(msg, ReuploadFailure));
                  case Returned(c) =>
                    if c.ok {
                      done := true;
                    } else {
                      message := Some(OrDefault(c.error, "Failed to confirm upload"));
                    }
                }
              }
          }
        }
    }
  }

  // ---------------------------------------------------------------------
  // The component's state
  // ---------------------------------------------------------------------

  /** The fields of the re-upload dialog. */
  datatype UploadForm = UploadForm(
    mode: PatchMode,
    file: Option<string>,
    error: Option<string>,
    checksumStatus: ChecksumStatus,
    checksumError: string,
    genStatus: GenStatus,
    genError: string,
    baseRomFile: Option<string>)

  /** The re-upload dialog as first shown, and as closing it leaves it. */
  const FreshUpload: UploadForm := UploadForm(Bps, None, None, Unchecked, "", Idle, "", None)

  /** The state of the controls of one version. */
  class ActionPanel {
    const slug: string
    const patch: Patch
    const isCurrent: bool
    const baseRom: string
    const entry: Option<BaseRomEntry>
    const currentCreatedAt: Option<int>
    var dialog: Option<Action>
    var actionLoading: bool
    var upload: UploadForm
    var alerts: seq<string>
    var windows: seq<string>
    var completions: nat

    /** Between events nothing is loading, and an open dialog belongs to an offered button. */
    predicate Valid()
      reads this
    {
      && !actionLoading
      && (dialog.Some? ==> dialog.value != Download && Offers(dialog.value, patch, isCurrent, currentCreatedAt))
    }

    /** The base ROM's checksum, when the table knows the base ROM. */
    function BaseCrc(): Option<int>
      reads this
    {
      if entry.Some? then Some(entry.value.crc32) else None
    }

    /** `disabled` of the Upload button over the current state. */
    predicate UploadDisabled()
      reads this
    {
      UploadBlocked(actionLoading, upload.file, upload.checksumStatus)
    }

    constructor (slug: string, patch: Patch, isCurrent: bool, baseRom: string, entry: Option<BaseRomEntry>,
                 currentCreatedAt: Option<int>)
      ensures Valid()
      ensures this.slug == slug && this.patch == patch && this.isCurrent == isCurrent
      ensures this.baseRom == baseRom && this.entry == entry && this.currentCreatedAt == currentCreatedAt
      ensures dialog == None && upload == FreshUpload && alerts == [] && windows == [] && completions == 0
    {
      this.slug := slug;
      this.patch := patch;
      this.isCurrent := isCurrent;
      this.baseRom := baseRom;
      this.entry := entry;
      this.currentCreatedAt := currentCreatedAt;
      dialog := None;
      actionLoading := false;
      upload := FreshUpload;
      alerts := [];
      windows := [];
      completions := 0;
    }

    /** A click on an offered button other than Download opens its dialog. */
    method OpenDialog(a: Action)
      requires Valid()
      requires a != Download && Offers(a, patch, isCurrent, currentCreatedAt)
      modifies this
      ensures Valid() && dialog == Some(a)
      ensures upload == old(upload) && alerts == old(alerts) && windows == old(windows) && completions == old(completions)
    {
      dialog := Some(a);
    }

    /**
     * Closing a dialog does nothing while an action runs; closing the
     * re-upload dialog also clears every field of it.
     */
    method CloseDialog()
      modifies this
      ensures old(actionLoading) ==> unchanged(this)
      ensures !old(actionLoading) ==> dialog == None
      ensures !old(actionLoading) ==> upload == if old(dialog) == Some(Reupload) then FreshUpload else old(upload)
      ensures actionLoading == old(actionLoading) && alerts == old(alerts) && windows == old(windows)
      ensures completions == old(completions)
    {
      if !actionLoading {
        if dialog == Some(Reupload) {
          upload := FreshUpload;
        }
        dialog := None;
      }
    }

    /** The confirm button of a lifecycle dialog, as `ActionRun` describes. */
    method RunAction(reply: Outcome<Reply>)
      requires Valid() && dialog.Some? && IsLifecycle(dialog.value)
      modifies this
      ensures var s := ActionRun(old(dialog).value, reply);
        && dialog == (if s.closed then None else old(dialog))
        && completions == old(completions) + (if s.completed then 1 else 0)
        && alerts == old(alerts) + (if s.alert.Some? then [s.alert.value] else [])
      ensures Valid()
      ensures upload == old(upload) && windows == old(windows)
    {
      var a := dialog.value;
      actionLoading := true;
      match reply {
        case Threw(_) =>
          alerts := alerts + [FailureMessage(a)];
        case Returned(r) =>
          if r.ok {
            dialog := None;
            completions := completions + 1;
          } else {
            alerts := alerts + [OrDefault(r.error, FailureMessage(a))];
          }
      }
      actionLoading := false;
    }

    /** The Download button, as `DownloadRun` describes. */
    method DownloadPatch(reply: Outcome<LinkReply>)
      modifies this
      ensures var d := DownloadRun(reply);
        && windows == old(windows) + (if d.Opened? then [d.url] else [])
        && alerts == old(alerts) + (if d.Alerted? then [d.message] else [])
      ensures dialog == old(dialog) && actionLoading == old(actionLoading) && upload == old(upload)
      ensures completions == old(completions)
    {
      match reply {
        case Threw(_) =>
          alerts := alerts + ["Failed to download patch"];
        case Returned(r) =>
          if r.ok {
            windows := windows + [r.url];
          } else {
            alerts := alerts + [OrDefault(r.error, "Failed to generate download URL")];
          }
      }
    }

    /** The mode buttons of the re-upload dialog change the mode and nothing else. */
    method SetPatchMode(mode: PatchMode)
      modifies this
      ensures upload == old(upload).(mode := mode)
      ensures dialog == old(dialog) && actionLoading == old(actionLoading) && alerts == old(alerts)
      ensures windows == old(windows) && completions == old(completions)
    {
      upload := upload.(mode := mode);
    }

    /** `onUploadPatch`: the checksum status, its message and the chosen file become the verdict's. */
    method OnUploadPatch(file: Option<string>, source: Outcome<Option<int>>)
      modifies this
      ensures var v := ChecksumVerdict(file, BaseCrc(), source);
        upload == old(upload).(checksumStatus := v.status, checksumError := v.error, file := v.file)
      ensures dialog == old(dialog) && actionLoading == old(actionLoading) && alerts == old(alerts)
      ensures windows == old(windows) && completions == old(completions)
    {
      upload := upload.(checksumStatus := Validating, checksumError := "");
      if file.None? {
        upload := upload.(checksumStatus := Unchecked, checksumError := "", file := None);
        return;
      }
      if entry.None? {
        upload := upload.(checksumStatus := Unknown, checksumError := NoChecksumMessage, file := file);
        return;
      }
      match source {
        case Threw(msg) =>
          upload := upload.(checksumStatus := Unknown, checksumError := OrDefault(msg, ValidateFailure), file := None);
        case Returned(sc) =>
          if sc.None? || sc.value == 0 {
            upload := upload.(checksumStatus := Unknown, checksumError := NoChecksumMessage, file := file);
          } else if sc.value != entry.value.crc32 {
            upload := upload.(checksumStatus := Invalid, checksumError := MismatchMessage, file := None);
          } else {
            upload := upload.(checksumStatus := Verified, checksumError := "", file := file);
          }
      }
    }

    /** `onUploadBaseRom`, as `ImportRun` describes; `matchedName` is the table's name for the match. */
    method OnUploadBaseRom(f: Option<string>, matched: Outcome<string>, matchedName: Option<string>)
      modifies this
      ensures var r := ImportRun(baseRom, f, matched, matchedName, if entry.Some? then entry.value.name else "",
                                 old(upload.baseRomFile));
        upload == old(upload).(genError := r.error, baseRomFile := r.baseRomFile)
      ensures dialog == old(dialog) && actionLoading == old(actionLoading) && alerts == old(alerts)
      ensures windows == old(windows) && completions == old(completions)
    {
      upload := upload.(genError := "");
      if f.None? || baseRom == "" {
        return;
      }
      match matched {
        case Threw(_) =>
          upload := upload.(genError := ImportFailure, baseRomFile := None);
        case Returned(id) =>
          if id == "" {
            upload := upload.(genError := NoMatchMessage);
          } else if id != baseRom {
            var name := if matchedName.Some? then matchedName.value else id;
            var wanted := OrDefault(if entry.Some? then entry.value.name else "", baseRom);
            upload := upload.(genError := "This ROM matches \"" + name + "\", but the form requires \"" + wanted + "\".");
          } else {
            upload := upload.(baseRomFile := f);
          }
      }
    }

    /** `onUploadModifiedRom`, as `GenerateRun` describes; the checksum status is left as it was. */
    method OnUploadModifiedRom(mod: Option<string>, stored: Outcome<Option<string>>, hash: Outcome<string>,
                               build: Option<string>)
      modifies this
      ensures var g := GenerateRun(slug, baseRom, mod, old(upload.baseRomFile), stored,
                                   if entry.Some? then entry.value.sha1 else "", hash, build, old(upload.file));
        upload == old(upload).(genStatus := g.status, genError := g.error, file := g.file)
      ensures dialog == old(dialog) && actionLoading == old(actionLoading) && alerts == old(alerts)
      ensures windows == old(windows) && completions == old(completions)
    {
      upload := upload.(genStatus := Generating, genError := "");
      if mod.None? || baseRom == "" {
        upload := upload.(genStatus := Idle);
        return;
      }
      var base := upload.baseRomFile;
      if base.None? {
        match stored {
          case Threw(msg) =>
            upload := upload.(genStatus := Failed, genError := OrDefault(msg, GenerateFailure));
            return;
          case Returned(b) =>
            base := b;
        }
      }
      if base.None? {
        upload := upload.(genStatus := Failed, genError := NoBaseMessage);
        return;
      }
      var expected := if entry.Some? then entry.value.sha1 else "";
      if expected != "" {
        match hash {
          case Threw(msg) =>
            upload := upload.(genStatus := Failed, genError := OrDefault(msg, GenerateFailure));
            return;
          case Returned(h) =>
            if Lower(h) != Lower(expected) {
              upload := upload.(genStatus := Failed, genError := HashMismatchMessage);
              return;
            }
        }
      }
      match build {
        case Some(msg) =>
          upload := upload.(genStatus := Failed, genError := OrDefault(msg, GenerateFailure));
        case None =>
          upload := upload.(file := Some(GeneratedName(slug)), genStatus := Ready);
      }
    }

    /**
     * `handleReupload` in the open re-upload dialog, as `ReuploadRun`
     * describes: the error line shows its error, and a re-upload that went
     * through closes the dialog, drops the file and tells the list to reload.
     */
    method HandleReupload(now: nat, presign: Outcome<UrlReply>, put: Outcome<bool>, confirm: Outcome<Reply>)
      returns (calls: seq<Call>)
      requires Valid() && dialog == Some(Reupload)
      modifies this
      ensures var r := ReuploadRun(slug, patch, old(upload.file), now, presign, put, confirm);
        && calls == r.calls
        && upload == old(upload).(error := r.error, file := if r.done then None else old(upload.file))
        && dialog == (if r.done then None else old(dialog))
        && completions == old(completions) + (if r.done then 1 else 0)
      ensures Valid()
      ensures alerts == old(alerts) && windows == old(windows)
    {
      if upload.file.None? {
        upload := upload.(error := Some(SelectFileMessage));
        return [];
      }
      actionLoading := true;
      upload := upload.(error := None);
      var message, done;
      calls, message, done := Transfer(slug, patch, upload.file.value, now, presign, put, confirm);
      if done {
        dialog := None;
        upload := upload.(file := None);
        completions := completions + 1;
      } else {
        upload := upload.(error := message);
      }
      actionLoading := false;
    }
  }
}
