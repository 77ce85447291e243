/**
 * The version list of a hack: which changelogs start expanded, toggling
 * one, the merge of live and archived patches sorted newest first, the
 * "no versions" state, the current patch's creation time and the inline
 * rename of a version label.
 */
module VersionList {
  import opened Types
  import opened Text

  // ---------------------------------------------------------------------
  // Per-patch predicates
  // ---------------------------------------------------------------------

  /** `hasChangelog`: the changelog is present and not blank. */
  predicate HasChangelog(p: Patch) {
    p.changelog.Some? && Trim(p.changelog.value) != ""
  }

  /** `isCurrent`: the patch is the one the hack points at. */
  predicate IsCurrent(p: Patch, currentPatchId: Option<int>) {
    currentPatchId == Some(p.id)
  }

  /** A changelog counts exactly when it is present and holds a character that is not whitespace. */
  lemma HasChangelogIff(p: Patch)
    ensures HasChangelog(p) <==> p.changelog.Some? && !AllWhitespace(p.changelog.value)
  {
    if p.changelog.Some? {
      TrimEmptyIff(p.changelog.value);
    }
  }

  // ---------------------------------------------------------------------
  // Expanded changelogs
  // ---------------------------------------------------------------------

  /** `getInitialExpanded`: the first patch's id when its changelog counts, otherwise nothing. */
  function InitialExpanded(patches: seq<Patch>): (r: set<int>)
    ensures |r| <= 1
    ensures forall id :: id in r <==> patches != [] && id == patches[0].id && HasChangelog(patches[0])
  {
    if patches != [] && HasChangelog(patches[0]) then {patches[0].id} else {}
  }

  /** Nothing starts expanded when the list is empty or the first changelog is missing or all whitespace. */
  lemma InitialExpandedEmpty(patches: seq<Patch>)
    ensures InitialExpanded(patches) == {} <==>
      patches == [] || patches[0].changelog.None? || AllWhitespace(patches[0].changelog.value)
  {
    if patches != [] {
      HasChangelogIff(patches[0]);
      if HasChangelog(patches[0]) {
        assert patches[0].id in InitialExpanded(patches);
      }
    }
  }

  /** The set after toggling `id`: `id` changes membership and every other id keeps its own. */
  function Toggled(s: set<int>, id: int): (r: set<int>)
    ensures id in r <==> id !in s
    ensures forall x :: x != id ==> (x in r <==> x in s)
  {
    if id in s then s - {id} else s + {id}
  }

  /** Toggling the same id twice gives back the original set. */
  lemma ToggleTwice(s: set<int>, id: int)
    ensures Toggled(Toggled(s, id), id) == s
  {
  }

  /** Toggling two ids gives the same set in either order. */
  lemma ToggleCommutes(s: set<int>, a: int, b: int)
    ensures Toggled(Toggled(s, a), b) == Toggled(Toggled(s, b), a)
  {
  }

  // ---------------------------------------------------------------------
  // Merging live and archived patches
  // ---------------------------------------------------------------------

  /** `patches.some(p => p.id === id)`. */
  predicate HasId(patches: seq<Patch>, id: int) {
    exists i :: 0 <= i < |patches| && patches[i].id == id
  }

  /** The archived patches whose id is not already in the live list, in their order. */
  function FreshArchived(patches: seq<Patch>, archived: seq<Patch>): (r: seq<Patch>)
    ensures multiset(r) <= multiset(archived)
    ensures forall x :: x in r ==> x in archived && !HasId(patches, x.id)
  {
    if archived == [] then []
    else
      var rest := FreshArchived(patches, archived[1..]);
      assert archived == [archived[0]] + archived[1..];
      if HasId(patches, archived[0].id) then rest else [archived[0]] + rest
  }

  /**
   * Exactly the archived patches with a new id survive, each as many times
   * as it is archived.
   */
  lemma {:induction false} FreshArchivedCount(patches: seq<Patch>, archived: seq<Patch>, x: Patch)
    ensures multiset(FreshArchived(patches, archived))[x] == if HasId(patches, x.id) then 0 else multiset(archived)[x]
  {
    if archived != [] {
      var a, rest := archived[0], archived[1..];
      FreshArchivedCount(patches, rest, x);
      assert archived == [a] + rest;
      assert multiset(archived)[x] == multiset(rest)[x] + multiset{a}[x];
      if HasId(patches, a.id) {
        assert FreshArchived(patches, archived) == FreshArchived(patches, rest);
      } else {
        assert FreshArchived(patches, archived) == [a] + FreshArchived(patches, rest);
      }
    }
  }

  /** Nothing is filtered out of the archived list when the live list is empty. */
  lemma {:induction false} FreshArchivedOfEmpty(archived: seq<Patch>)
    ensures FreshArchived([], archived) == archived
  {
    if archived != [] {
      FreshArchivedOfEmpty(archived[1..]);
      assert archived == [archived[0]] + archived[1..];
    }
  }

  /** The patches with creation time `t`, in their order. */
  function WithTime(s: seq<Patch>, t: int): seq<Patch> {
    if s == [] then []
    else if s[0].createdAt == t then [s[0]] + WithTime(s[1..], t)
    else WithTime(s[1..], t)
  }

  /** Newest first: creation times never increase along the sequence. */
  predicate NewestFirst(s: seq<Patch>) {
    forall i, j :: 0 <= i < j < |s| ==> s[i].createdAt >= s[j].createdAt
  }

  /**
   * Places `x` before the first element that is not newer than it, which is
   * where a stable sort puts an element that came first in the input.
   */
  function Insert(x: Patch, t: seq<Patch>): (r: seq<Patch>)
    ensures |r| == |t| + 1
  {
    if t == [] || x.createdAt >= t[0].createdAt then [x] + t
    else [t[0]] + Insert(x, t[1..])
  }

  /**
   * The comparator `(a, b) => time(b) - time(a)` given to the stable
   * `Array.prototype.sort`: newest first, equal times in input order.
   */
  function SortNewestFirst(s: seq<Patch>): seq<Patch> {
    if s == [] then [] else Insert(s[0], SortNewestFirst(s[1..]))
  }

  lemma {:induction false} InsertFirst(x: Patch, t: seq<Patch>)
    ensures var r := Insert(x, t);
      r[0] == x || (t != [] && r[0] == t[0])
  {
  }

  lemma {:induction false} InsertNewestFirst(x: Patch, t: seq<Patch>)
    requires NewestFirst(t)
    ensures NewestFirst(Insert(x, t))
  {
    if t != [] && x.createdAt < t[0].createdAt {
      var rest := Insert(x, t[1..]);
      InsertNewestFirst(x, t[1..]);
      InsertFirst(x, t[1..]);
      var r := [t[0]] + rest;
      forall i, j | 0 <= i < j < |r| ensures r[i].createdAt >= r[j].createdAt {
        if i == 0 {
          assert r[j] in rest;
          InsertMembers(x, t[1..]);
          assert r[j] == x || r[j] in t[1..];
        } else {
          assert r[i] == rest[i - 1] && r[j] == rest[j - 1];
        }
      }
    }
  }

  lemma {:induction false} InsertMembers(x: Patch, t: seq<Patch>)
    ensures multiset(Insert(x, t)) == multiset(t) + multiset{x}
    ensures forall y :: y in Insert(x, t) <==> y == x || y in t
  {
    if t != [] && x.createdAt < t[0].createdAt {
      InsertMembers(x, t[1..]);
      assert t == [t[0]] + t[1..];
    }
  }

  lemma {:induction false} InsertWithTime(x: Patch, t: seq<Patch>, k: int)
    ensures WithTime(Insert(x, t), k) == if x.createdAt == k then [x] + WithTime(t, k) else WithTime(t, k)
  {
    if t != [] && x.createdAt < t[0].createdAt {
      InsertWithTime(x, t[1..], k);
      assert ([t[0]] + Insert(x, t[1..]))[1..] == Insert(x, t[1..]);
    } else {
      assert ([x] + t)[1..] == t;
    }
  }

  /** The sort puts the patches newest first and only rearranges them. */
  lemma {:induction false} SortSpec(s: seq<Patch>)
    ensures NewestFirst(SortNewestFirst(s))
    ensures multiset(SortNewestFirst(s)) == multiset(s)
  {
    if s != [] {
      SortSpec(s[1..]);
      InsertNewestFirst(s[0], SortNewestFirst(s[1..]));
      InsertMembers(s[0], SortNewestFirst(s[1..]));
      assert s == [s[0]] + s[1..];
    }
  }

  /** The sort is stable: patches created at the same time keep their relative order. */
  lemma {:induction false} SortStable(s: seq<Patch>, k: int)
    ensures WithTime(SortNewestFirst(s), k) == WithTime(s, k)
  {
    if s != [] {
      SortStable(s[1..], k);
      InsertWithTime(s[0], SortNewestFirst(s[1..]), k);
    }
  }

  /**
   * `allPatches`: with archived versions shown to an editor, the live
   * patches and the archived ones not already listed, sorted newest first;
   * otherwise the live patches as they are.
   */
  function AllPatches(patches: seq<Patch>, archived: seq<Patch>, showArchived: bool, canEdit: bool): seq<Patch> {
    if showArchived && canEdit then SortNewestFirst(patches + FreshArchived(patches, archived))
    else patches
  }

  /** Without archived versions shown to an editor, the list is the live patches unchanged. */
  lemma AllPatchesPlain(patches: seq<Patch>, archived: seq<Patch>, showArchived: bool, canEdit: bool)
    requires !(showArchived && canEdit)
    ensures AllPatches(patches, archived, showArchived, canEdit) == patches
  {
  }

  /**
   * With archived versions shown to an editor, the list is sorted newest
   * first, holds every live patch, and adds exactly the archived patches
   * whose id is not live; nothing else appears.
   */
  lemma AllPatchesMerged(patches: seq<Patch>, archived: seq<Patch>, x: Patch)
    ensures var all := AllPatches(patches, archived, true, true);
      && NewestFirst(all)
      && multiset(all)[x] == multiset(patches)[x] + (if HasId(patches, x.id) then 0 else multiset(archived)[x])
      && (x in all <==> x in patches || (x in archived && !HasId(patches, x.id)))
  {
    var newer := FreshArchived(patches, archived);
    SortSpec(patches + newer);
    FreshArchivedCount(patches, archived, x);
    assert multiset(patches + newer) == multiset(patches) + multiset(newer);
  }

  /** Patches created at the same time appear in the merged list in their live-then-archived order. */
  lemma AllPatchesStable(patches: seq<Patch>, archived: seq<Patch>, k: int)
    ensures WithTime(AllPatches(patches, archived, true, true), k)
         == WithTime(patches + FreshArchived(patches, archived), k)
  {
    SortStable(patches + FreshArchived(patches, archived), k);
  }

  /** The "No versions available yet" state. */
  predicate NoVersions(patches: seq<Patch>, archived: seq<Patch>, showArchived: bool) {
    |patches| == 0 && (!showArchived || |archived| == 0)
  }

  /**
   * The empty state shows exactly when the list would have no entry, as
   * long as archived patches are only loaded for editors.
   */
  lemma NoVersionsIff(patches: seq<Patch>, archived: seq<Patch>, showArchived: bool, canEdit: bool)
    requires !canEdit ==> archived == []
    ensures NoVersions(patches, archived, showArchived) <==> AllPatches(patches, archived, showArchived, canEdit) == []
  {
    if showArchived && canEdit {
      var all := AllPatches(patches, archived, showArchived, canEdit);
      SortSpec(patches + FreshArchived(patches, archived));
      if patches == [] {
        FreshArchivedOfEmpty(archived);
        assert patches + archived == archived;
      }
      assert |all| == |patches + FreshArchived(patches, archived)| by {
        assert |multiset(all)| == |multiset(patches + FreshArchived(patches, archived))|;
      }
    }
  }

  /** `currentPatch?.created_at || null`: the creation time of the first listed patch with the current id. */
  function CurrentCreatedAt(all: seq<Patch>, currentPatchId: Option<int>): (r: Option<int>)
    ensures r.None? <==> forall i :: 0 <= i < |all| ==> !IsCurrent(all[i], currentPatchId)
    ensures r.Some? ==>
      exists i :: (0 <= i < |all| && IsCurrent(all[i], currentPatchId) && all[i].createdAt == r.value
                   && forall j :: 0 <= j < i ==> !IsCurrent(all[j], currentPatchId))
  {
    if all == [] then None
    else if IsCurrent(all[0], currentPatchId) then Some(all[0].createdAt)
    else
      var r := CurrentCreatedAt(all[1..], currentPatchId);
      assert forall i :: 1 <= i < |all| ==> all[i] == all[1..][i - 1];
      r
  }

  /** With no current patch id, no creation time is passed down. */
  lemma NoCurrentNoTime(all: seq<Patch>)
    ensures CurrentCreatedAt(all, None) == None
  {
  }

  // ---------------------------------------------------------------------
  // The list's state
  // ---------------------------------------------------------------------

  /** The state the version list keeps between renders. */
  class ListState {
    const patches: seq<Patch>
    const currentPatchId: Option<int>
    const canEdit: bool
    var expanded: set<int>
    var editingChangelog: Option<int>
    var editingVersion: Option<int>
    var showArchived: bool
    var archivedPatches: seq<Patch>
    var loadingArchived: bool

    /** Archived patches are only ever loaded for an editor, and no load is left pending between events. */
    predicate Valid()
      reads this
    {
      (!canEdit ==> archivedPatches == []) && !loadingArchived
    }

    /** The entries the list shows. */
    function Shown(): seq<Patch>
      reads this
    {
      AllPatches(patches, archivedPatches, showArchived, canEdit)
    }

    /** The first render: the initial expanded set, nothing being edited, archived versions hidden. */
    constructor (patches: seq<Patch>, currentPatchId: Option<int>, canEdit: bool)
      ensures Valid()
      ensures this.patches == patches && this.currentPatchId == currentPatchId && this.canEdit == canEdit
      ensures expanded == InitialExpanded(patches)
      ensures editingChangelog == None && editingVersion == None
      ensures !showArchived && archivedPatches == []
      ensures Shown() == patches
    {
      this.patches := patches;
      this.currentPatchId := currentPatchId;
      this.canEdit := canEdit;
      expanded := InitialExpanded(patches);
      editingChangelog := None;
      editingVersion := None;
      showArchived := false;
      archivedPatches := [];
      loadingArchived := false;
    }

    /** `toggleChangelog`: copy the set, flip the id in the copy, store the copy. */
    method ToggleChangelog(patchId: int)
      modifies this
      ensures expanded == Toggled(old(expanded), patchId)
      ensures editingChangelog == old(editingChangelog) && editingVersion == old(editingVersion)
      ensures showArchived == old(showArchived) && archivedPatches == old(archivedPatches)
      ensures loadingArchived == old(loadingArchived)
    {
      var newExpanded := expanded;
      if patchId in newExpanded {
        newExpanded := newExpanded - {patchId};
      } else {
        newExpanded := newExpanded + {patchId};
      }
      expanded := newExpanded;
    }

    /**
     * Ticking or clearing "Show archived versions", followed by the fetch
     * effect: archived patches are fetched when shown to an editor and none
     * are loaded yet; `fetched` is the query's data, `None` on an error.
     */
    method SetShowArchived(show: bool, fetched: Option<seq<Patch>>)
      requires Valid()
      modifies this
      ensures Valid()
      ensures showArchived == show
      ensures archivedPatches ==
        if show != old(showArchived) && show && canEdit && old(archivedPatches) == [] && fetched.Some?
        then fetched.value else old(archivedPatches)
      ensures expanded == old(expanded) && editingChangelog == old(editingChangelog) && editingVersion == old(editingVersion)
    {
      var changed := show != showArchived;
      showArchived := show;
      if changed && showArchived && canEdit && |archivedPatches| == 0 && !loadingArchived {
        loadingArchived := true;
        if fetched.Some? {
          archivedPatches := fetched.value;
        }
        loadingArchived := false;
      }
    }

    /** `onActionComplete`: leave both editors and drop the archived patches so they are fetched again. */
    method ActionComplete()
      requires Valid()
      modifies this
      ensures Valid()
      ensures editingChangelog == None && editingVersion == None && archivedPatches == []
      ensures expanded == old(expanded) && showArchived == old(showArchived)
    {
      editingChangelog := None;
      editingVersion := None;
      archivedPatches := [];
    }
  }

  // ---------------------------------------------------------------------
  // Renaming a version
  // ---------------------------------------------------------------------

  /** What `handleSave` decides before any call: refuse, give up, or send a label. */
  datatype Rename = Reject(message: string) | Unchanged | Send(trimmed: string)

  /** `handleSave`'s checks on the typed label. */
  function RenameDecision(version: string, initialVersion: string): Rename {
    var trimmed := Trim(version);
    if trimmed == "" then Reject("Version cannot be empty")
    else if trimmed == initialVersion then Unchanged
    else Send(trimmed)
  }

  /**
   * A blank label is refused, a label equal to the current one after
   * trimming is abandoned, and anything else is sent trimmed, non-empty and
   * different from the current label.
   */
  lemma RenameDecisionSpec(version: string, initialVersion: string)
    ensures var d := RenameDecision(version, initialVersion);
      && (d.Reject? <==> AllWhitespace(version))
      && (d.Reject? ==> d.message == "Version cannot be empty")
      && (d.Unchanged? <==> !AllWhitespace(version) && Trim(version) == initialVersion)
      && (d.Send? ==> d.trimmed == Trim(version) && d.trimmed != "" && d.trimmed != initialVersion
                      && Trim(d.trimmed) == d.trimmed)
  {
    TrimEmptyIff(version);
    TrimIdempotent(version);
  }

  /** Whitespace around a label does not change the decision. */
  lemma RenameIgnoresPadding(version: string, initialVersion: string)
    ensures RenameDecision(Trim(version), initialVersion) == RenameDecision(version, initialVersion)
  {
    TrimIdempotent(version);
  }

  /** The reply of `updatePatchVersion`; an empty `error` stands for a missing one. */
  datatype UpdateReply = UpdateReply(ok: bool, error: string)

  /** How the editor is left: still open, closed by `onCancel`, or closed by `onSave`. */
  datatype EditorEnd = Open | Cancelled | Saved

  /** The visible effect of one save: the label sent (if any), how the editor ends and the error it shows. */
  datatype SaveOutcome = SaveOutcome(sent: Option<string>, end: EditorEnd, error: Option<string>)

  /**
   * One `handleSave`, given the reply of the update call. A thrown call
   * shows the fixed message, whatever the exception says. `error` is the
   * message shown before the save.
   */
  function SaveRun(version: string, initialVersion: string, error: Option<string>, reply: Outcome<UpdateReply>): SaveOutcome {
    match RenameDecision(version, initialVersion)
    case Reject(msg) => SaveOutcome(None, Open, Some(msg))
    case Unchanged => SaveOutcome(None, Cancelled, error)
    case Send(trimmed) =>
      match reply
      case Threw(_) => SaveOutcome(Some(trimmed), Open, Some("Failed to update version"))
      case Returned(r) =>
        if r.ok then SaveOutcome(Some(trimmed), Saved, None)
        else SaveOutcome(Some(trimmed), Open, Some(OrDefault(r.error, "Failed to update version")))
  }

  /**
   * The server is called only for a label that passes the checks, with
   * that label trimmed; the editor closes through `onSave` exactly when the
   * call answers ok; an editor left open after a call shows an error.
   */
  lemma SaveRunSpec(version: string, initialVersion: string, error: Option<string>, reply: Outcome<UpdateReply>)
    ensures var r := SaveRun(version, initialVersion, error, reply);
      && (r.sent.Some? <==> RenameDecision(version, initialVersion).Send?)
      && (r.sent.Some? ==> r.sent.value == Trim(version) && r.sent.value != initialVersion && r.sent.value != "")
      && (r.end == Saved <==> r.sent.Some? && reply.Returned? && reply.value.ok)
      && (r.end == Cancelled <==> RenameDecision(version, initialVersion).Unchanged?)
      && (r.end == Open ==> r.error.Some? && r.error.value != "")
  {
    RenameDecisionSpec(version, initialVersion);
  }

  /** The inline editor of one version label. */
  class VersionEditor {
    const patchId: int
    const initialVersion: string
    var version: string
    var saving: bool
    var error: Option<string>

    constructor (patchId: int, initialVersion: string)
      ensures this.patchId == patchId && this.initialVersion == initialVersion
      ensures version == initialVersion && !saving && error == None
    {
      this.patchId := patchId;
      this.initialVersion := initialVersion;
      version := initialVersion;
      saving := false;
      error := None;
    }

    /** Typing into the field replaces the label and clears the error. */
    method Edit(text: string)
      modifies this
      ensures version == text && error == None && saving == old(saving)
    {
      version := text;
      error := None;
    }

    /**
     * `handleSave`, step by step: the checks, then the update call with the
     * trimmed label; `sent` is the label passed to the server and `end` how
     * the editor is left.
     */
    method HandleSave(reply: Outcome<UpdateReply>) returns (sent: Option<string>, end: EditorEnd)
      requires !saving
      modifies this
      ensures SaveOutcome(sent, end, error) == SaveRun(old(version), initialVersion, old(error), reply)
      ensures version == old(version) && !saving
    {
      var trimmedVersion := Trim(version);
      if trimmedVersion == "" {
        error := Some("Version cannot be empty");
        return None, Open;
      }
      if trimmedVersion == initialVersion {
        return None, Cancelled;
      }
      saving := true;
      error := None;
      sent := Some(trimmedVersion);
      match reply {
        case Threw(_) =>
          error := Some("Failed to update version");
          end := Open;
        case Returned(r) =>
          if r.ok {
            end := Saved;
          } else {
            error := Some(OrDefault(r.error, "Failed to update version"));
            end := Open;
          }
      }
      saving := false;
    }
  }
}
