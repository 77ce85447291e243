# Hack versions: list, per-version actions and the new-version form

This project models the decision and text logic behind the version
management of a ROM hack on the Hackdex site, and proves properties of that
model in Dafny. Three components are covered.

- The **version list** (`VersionList`) decides:
  - which versions start expanded, and how expanding a version toggles;
  - how archived versions are merged into the list, newest first;
  - when the "no versions" state shows and what the current version's creation time is;
  - the state changes of the list when the user edits;
  - the inline editor that renames a version label.
- The **per-version actions** (`VersionActions`) decide:
  - which actions the toolbar and the mobile menu offer for a version (publish, download, re-upload, roll back, archive, restore);
  - the storage key of a re-uploaded patch;
  - the checksum verdict on a chosen `.bps` file;
  - the base-ROM import and the on-device patch generation of the re-upload dialog;
  - the presign, upload and confirm sequence of a re-upload;
  - the dialog state of the panel, as the class `ActionPanel`.
- The **new-version form** (`HackPatchForm`) decides:
  - the suggestion of the next version label, taken from the current one by the pattern `^([^0-9]*\s*)([0-9]+)(?:\.([0-9]+))?(?:\.([0-9]+))?([\s\S]*)$`;
  - whether a label is taken, and whether the form can be submitted;
  - the delta-mode threshold and the name of a generated patch file;
  - base-ROM import messages and patch generation;
  - the presign, upload and confirm submission;
  - the form's state, as the class `PatchForm`.

Shared modules:
- `Types` holds the patch record, the optional and call-outcome wrappers and the small enumerations.
- `Text` holds JavaScript's `trim`, `||` on strings, ASCII `toLowerCase`, and decimal printing and parsing of natural numbers.
- `Sanitize` models `replace(/[^a-zA-Z0-9._-]+/g, "-")`.

Server actions, the storage client, `fetch`, the browser's base-ROM store,
digests and the BPS builder are not modelled as code. Each one is a parameter
that says what the awaited call did: `Returned(value)` or `Threw(message)`
(`Types.Outcome`). A file is represented by its name.

## Model

| member | source | states |
|---|---|---|
| Text.TrimStartSpec | src/components/Hack/HackPatchForm.tsx:47 | `TrimStart` drops exactly a leading run of whitespace, and what remains is empty or starts with a non-whitespace character |
| Text.TrimEndSpec | src/components/Hack/HackPatchForm.tsx:47 | `TrimEnd` drops exactly a trailing run of whitespace, and what remains is empty or ends with a non-whitespace character |
| Text.TrimIsSlice | src/components/Hack/HackPatchForm.tsx:47 | the trimmed label is a contiguous slice of the input, with only whitespace cut on either side |
| Text.TrimEnds | src/components/Hack/HackPatchForm.tsx:47 | a non-empty trimmed label starts and ends with a non-whitespace character |
| Text.TrimEmptyIff | src/components/Hack/HackPatchForm.tsx:49 | a label trims to empty exactly when it is all whitespace |
| Text.AllWhitespaceTrimsAway | src/components/Hack/HackPatchForm.tsx:49 | an all-whitespace label loses everything to trimming at the start |
| Text.TrimIdempotent | src/components/Hack/HackPatchForm.tsx:47 | trimming a trimmed label changes nothing |
| Text.TrimUnchanged | src/components/Hack/VersionList.tsx:408-434 | a label with non-whitespace ends is its own trim |
| Text.OrDefault | src/components/Hack/HackPatchForm.tsx:139 | `s \|\| fallback` is `s` whenever `s` is non-empty and the fallback otherwise, so it is empty only when the fallback is |
| Text.DigitValue | src/components/Hack/HackPatchForm.tsx:65-67 | a digit's value is below ten |
| Text.DigitChar | src/components/Hack/HackPatchForm.tsx:69 | the printed digit of `d` is a digit whose value is `d` |
| Text.ShowNat | src/components/Hack/HackPatchForm.tsx:69 | a printed number is a non-empty run of digits with no leading zero |
| Text.StripLeadingZeros | src/components/Hack/HackPatchForm.tsx:65-67 | dropping leading zeros gives a canonical numeral with the same value |
| Text.LeadingZeroValue | src/components/Hack/HackPatchForm.tsx:65-67 | a leading zero does not change the value `parseInt` reads |
| Text.NonZeroLeadPositive | src/components/Hack/HackPatchForm.tsx:65-67 | a numeral starting with a non-zero digit has a positive value |
| Text.ParseShow | src/components/Hack/HackPatchForm.tsx:65-69 | reading back a printed number gives the number |
| Text.ShowParseCanonical | src/components/Hack/HackPatchForm.tsx:65-69 | printing the value of a canonical numeral gives the numeral back |
| Text.ShowParse | src/components/Hack/HackPatchForm.tsx:65-69 | printing the value of any numeral gives it without its leading zeros |
| Text.ShowNatInjective | src/components/Hack/VersionActions.tsx:324 | two different timestamps never print the same |
| Sanitize.UnsafeRunLength | src/components/Hack/VersionActions.tsx:323 | the measured run is exactly the maximal leading run of characters outside `[a-zA-Z0-9._-]` |
| Sanitize.SanitizeOutput | src/components/Hack/VersionActions.tsx:323 | the sanitised label holds only `[a-zA-Z0-9._-]` and is no longer than the input |
| Sanitize.SanitizeSafe | src/components/Hack/VersionActions.tsx:323 | a label made only of safe characters is left as it is |
| Sanitize.SanitizeIdempotent | src/components/Hack/VersionActions.tsx:323 | sanitising twice equals sanitising once, and a label is a fixed point exactly when it is all safe |
| Sanitize.SanitizeEmptyIff | src/components/Hack/VersionActions.tsx:323 | only the empty label sanitises to empty |
| Sanitize.SanitizeUnsafeRun | src/components/Hack/VersionActions.tsx:323 | a non-empty label made only of unsafe characters becomes a single dash |
| Sanitize.UnsafeRunOfConcat | src/components/Hack/VersionActions.tsx:323 | the leading unsafe run of a concatenation stops in the first part, or spans it and continues into the second |
| Sanitize.SanitizeConcat | src/components/Hack/VersionActions.tsx:323 | sanitising distributes over concatenation when the first part ends with a safe character or the second starts with one |
| Sanitize.ConcatSafeHead | src/components/Hack/VersionActions.tsx:323 | the concatenation rule when the first part starts with a safe character |
| Sanitize.ConcatUnsafeHead | src/components/Hack/VersionActions.tsx:323 | the concatenation rule when the first part starts with an unsafe character |
| Sanitize.ConcatAfterRun | src/components/Hack/VersionActions.tsx:323 | the concatenation rule after the leading unsafe run of the first part |
| Sanitize.UnsafeSplit | src/components/Hack/VersionActions.tsx:323 | a leading unsafe run followed by more text becomes one dash before the sanitised rest, with or without text appended |
| Sanitize.UnsafeWhole | src/components/Hack/VersionActions.tsx:323 | the concatenation rule when the first part is entirely an unsafe run |
| Sanitize.WholeRunAlone | src/components/Hack/VersionActions.tsx:323 | a part that is entirely unsafe sanitises to one dash |
| Sanitize.WholeRunBefore | src/components/Hack/VersionActions.tsx:323 | an all-unsafe part in front of a safe-starting part adds exactly one dash |
| VersionList.HasChangelogIff | src/components/Hack/VersionList.tsx:115 | a version has a changelog exactly when it has one with a non-whitespace character |
| VersionList.InitialExpanded | src/components/Hack/VersionList.tsx:34-42 | at most one version starts expanded: the first, and only when it has a changelog |
| VersionList.InitialExpandedEmpty | src/components/Hack/VersionList.tsx:34-42 | nothing starts expanded exactly when the list is empty or its first version has no changelog |
| VersionList.Toggled | src/components/Hack/VersionList.tsx:53-61 | toggling flips the membership of that one version and no other |
| VersionList.ToggleTwice | src/components/Hack/VersionList.tsx:53-61 | toggling the same version twice restores the expanded set |
| VersionList.ToggleCommutes | src/components/Hack/VersionList.tsx:53-61 | toggles of two versions give the same set in either order |
| VersionList.FreshArchived | src/components/Hack/VersionList.tsx:85-89 | the archived versions merged in are archived versions whose id is not already listed |
| VersionList.FreshArchivedCount | src/components/Hack/VersionList.tsx:85-89 | each archived version is kept with its multiplicity unless its id is already listed, then dropped entirely |
| VersionList.FreshArchivedOfEmpty | src/components/Hack/VersionList.tsx:85-89 | with no listed versions every archived version is merged in |
| VersionList.Insert | src/components/Hack/VersionList.tsx:88 | inserting a version into the sorted list adds exactly one entry |
| VersionList.InsertFirst | src/components/Hack/VersionList.tsx:88 | an inserted version lands either first or behind the previous first entry |
| VersionList.InsertNewestFirst | src/components/Hack/VersionList.tsx:88 | inserting into a newest-first list keeps it newest first |
| VersionList.InsertMembers | src/components/Hack/VersionList.tsx:88 | insertion adds the version to the multiset of entries and changes nothing else |
| VersionList.InsertWithTime | src/components/Hack/VersionList.tsx:88 | among versions created at the same time, insertion keeps their relative order |
| VersionList.SortSpec | src/components/Hack/VersionList.tsx:88 | the sorted list is newest first and a permutation of its input |
| VersionList.SortStable | src/components/Hack/VersionList.tsx:88 | versions created at the same time keep their relative order (the sort is stable) |
| VersionList.AllPatchesPlain | src/components/Hack/VersionList.tsx:85-89 | unless an editor shows archived versions, the list is the hack's versions as given |
| VersionList.AllPatchesMerged | src/components/Hack/VersionList.tsx:85-89 | the merged list is newest first and holds each listed version plus each archived one with a new id, with multiplicity |
| VersionList.AllPatchesStable | src/components/Hack/VersionList.tsx:85-89 | the merge keeps listed-before-archived order among versions created at the same time |
| VersionList.NoVersionsIff | src/components/Hack/VersionList.tsx:91 | the empty state shows exactly when the list that would be rendered is empty |
| VersionList.CurrentCreatedAt | src/components/Hack/VersionList.tsx:118-119 | the current time is absent exactly when no listed version is current, and otherwise is the creation time of the first current one, as `find` returns it |
| VersionList.NoCurrentNoTime | src/components/Hack/VersionList.tsx:114-119 | without a current version there is no current creation time |
| VersionList.ListState.constructor | src/components/Hack/VersionList.tsx:44-49 | the first render: initial expanded set, no editor open, archived versions hidden and not loaded |
| VersionList.ListState.ToggleChangelog | src/components/Hack/VersionList.tsx:53-61 | the expanded set becomes its toggle, and nothing else changes |
| VersionList.ListState.SetShowArchived | src/components/Hack/VersionList.tsx:64-81 | archived versions are fetched only for an editor who turns them on with none loaded, and only a successful fetch stores them |
| VersionList.ListState.ActionComplete | src/components/Hack/VersionList.tsx:205-213 | after an action both editors close and the archived versions are dropped, to be fetched again |
| VersionList.RenameDecisionSpec | src/components/Hack/VersionList.tsx:408-418 | a blank label is refused with its message, a label equal to the current one after trimming is abandoned, and anything else is sent trimmed, non-empty and different |
| VersionList.RenameIgnoresPadding | src/components/Hack/VersionList.tsx:408-418 | whitespace around a label never changes the decision |
| VersionList.SaveRunSpec | src/components/Hack/VersionList.tsx:408-434 | the server gets a label only when it passes the checks; the editor closes through `onSave` exactly when the call answers ok; an editor left open shows an error |
| VersionList.VersionEditor.constructor | src/components/Hack/VersionList.tsx:397-399 | the editor starts on the current label, not saving, with no error |
| VersionList.VersionEditor.Edit | src/components/Hack/VersionList.tsx:453-456 | typing replaces the label and clears the error |
| VersionList.VersionEditor.HandleSave | src/components/Hack/VersionList.tsx:408-434 | a save does what `SaveRun` decides and always ends not saving |
| VersionActions.NewerThanCurrent | src/components/Hack/VersionActions.tsx:80-83 | without a current time nothing is newer; a version created at the current time is not newer; otherwise newer means created later |
| VersionActions.RollbackRule | src/components/Hack/VersionActions.tsx:85-86 | rollback is offered exactly for a non-current version that is published, or not created after the current one |
| VersionActions.ToolbarLayout | src/components/Hack/VersionActions.tsx:360-501 | the desktop toolbar is the fixed button order filtered by the offer rules |
| VersionActions.OfferedCons | src/components/Hack/VersionActions.tsx:453-501 | filtering a layout keeps its head exactly when that action is offered |
| VersionActions.MenuMatchesToolbar | src/components/Hack/VersionActions.tsx:518-572 | the mobile menu offers the same actions in the same order as the desktop toolbar |
| VersionActions.OfferedMembers | src/components/Hack/VersionActions.tsx:453-501 | an action is in a filtered layout exactly when it is in the layout and offered |
| VersionActions.OfferedDistinct | src/components/Hack/VersionActions.tsx:453-501 | filtering a layout without repeats gives a list without repeats |
| VersionActions.ToolbarOffers | src/components/Hack/VersionActions.tsx:360-501 | the toolbar holds an action exactly when the offer rules allow it, each at most once |
| VersionActions.ToolbarRules | src/components/Hack/VersionActions.tsx:360-501 | an archived version offers only download and restore; publish exactly when unpublished; archive exactly when not current; download and re-upload always; never archive or rollback on the current version |
| VersionActions.KeyParts | src/components/Hack/VersionActions.tsx:323-324 | a re-upload key splits back into its slug, sanitised label and timestamp by position |
| VersionActions.ObjectKeyShape | src/components/Hack/VersionActions.tsx:323-324 | a re-upload key starts with the slug and a dash, ends with `.bps`, and everything after the slug is file-name safe |
| VersionActions.DigitTailLength | src/components/Hack/VersionActions.tsx:324 | when two keys agree, a digit-only timestamp cannot be longer than the other |
| VersionActions.SplitAtDigits | src/components/Hack/VersionActions.tsx:324 | two equal keys with digit-only timestamps split into equal labels and equal timestamps |
| VersionActions.ObjectKeyInjective | src/components/Hack/VersionActions.tsx:323-324 | two re-upload keys of one hack are equal exactly when the sanitised labels and the timestamps are equal |
| VersionActions.VerdictCases | src/components/Hack/VersionActions.tsx:192-238 | no file leaves the verdict unchecked; verified exactly when the patch's source checksum equals the base ROM's non-zero one; invalid exactly when both are known, non-zero and differ; the file is kept only when verified or when unknown without a thrown error; every verdict but verified or unchecked carries a message |
| VersionActions.VerdictUnblocks | src/components/Hack/VersionActions.tsx:773 | right after a verdict, Upload is enabled exactly when the verdict kept a file |
| VersionActions.ImportSpec | src/components/Hack/VersionActions.tsx:240-261 | a base ROM file is taken exactly when it is recognised as the hack's own base ROM, with no error left; a thrown import drops the earlier file; every other refusal keeps it with a message |
| VersionActions.GenerateSpec | src/components/Hack/VersionActions.tsx:268-312 | generation is idle only without a modified ROM or a base ROM id; it never stays generating; ready replaces the file with the slug-named patch; anything else keeps the old file; an error shows exactly when it failed |
| VersionActions.GenerateOrder | src/components/Hack/VersionActions.tsx:276-295 | a missing stored base ROM fails before hashing or building; without a known digest the hash of the base file is never consulted |
| VersionActions.ActionRunSpec | src/components/Hack/VersionActions.tsx:124-190 | a publish, rollback, archive or restore closes its dialog and reports completion exactly when the server answers ok; otherwise a non-empty alert shows, and a thrown message is never shown |
| VersionActions.DownloadSpec | src/components/Hack/VersionActions.tsx:111-122 | a window opens on the given address exactly when the server answers ok; otherwise a non-empty alert shows |
| VersionActions.ReuploadOrder | src/components/Hack/VersionActions.tsx:314-356 | without a file nothing is called; otherwise presign with the timestamped key comes first; the upload to the presigned address happens exactly when presign answered ok; confirmation with the same key happens exactly when the upload also succeeded |
| VersionActions.ReuploadVerdict | src/components/Hack/VersionActions.tsx:314-356 | a re-upload goes through exactly when every step succeeds, and then shows no error; otherwise it shows a non-empty error |
| VersionActions.Transfer | src/components/Hack/VersionActions.tsx:321-355 | the awaited calls of a re-upload, run one after the other, make the calls, give the error and end as `ReuploadRun` decides |
| VersionActions.ActionPanel.constructor | src/components/Hack/VersionActions.tsx:38-74 | the panel starts with no dialog, a fresh upload form, no alerts, no opened windows and no completions |
| VersionActions.ActionPanel.OpenDialog | src/components/Hack/VersionActions.tsx:453-572 | a button opens exactly the dialog of an action offered for this version, and changes nothing else |
| VersionActions.ActionPanel.CloseDialog | src/components/Hack/VersionActions.tsx:667-679 | closing is ignored while an action runs; otherwise the dialog closes, and closing the re-upload dialog resets its form |
| VersionActions.ActionPanel.RunAction | src/components/Hack/VersionActions.tsx:124-190 | the confirmed action settles as `ActionRun` decides: closing, completing and alerting, with the panel left idle |
| VersionActions.ActionPanel.DownloadPatch | src/components/Hack/VersionActions.tsx:111-122 | a download opens a window or raises an alert as `DownloadRun` decides, and changes nothing else |
| VersionActions.ActionPanel.SetPatchMode | src/components/Hack/VersionActions.tsx:689-696 | choosing a mode changes only the mode of the re-upload form |
| VersionActions.ActionPanel.OnUploadPatch | src/components/Hack/VersionActions.tsx:192-238 | choosing a `.bps` file sets the form's file, status and error to the checksum verdict against this hack's base ROM |
| VersionActions.ActionPanel.OnUploadBaseRom | src/components/Hack/VersionActions.tsx:240-261 | choosing a base ROM sets the form's error and base ROM file as `ImportRun` decides |
| VersionActions.ActionPanel.OnUploadModifiedRom | src/components/Hack/VersionActions.tsx:268-312 | choosing a modified ROM sets the generation status, its error and the patch file as `GenerateRun` decides, using the base ROM file picked earlier |
| VersionActions.ActionPanel.HandleReupload | src/components/Hack/VersionActions.tsx:314-356 | a re-upload makes the calls and leaves the error, the dialog and the completion count as `ReuploadRun` decides, with the panel left idle |
| HackPatchForm.NonDigitEnd | src/components/Hack/HackPatchForm.tsx:62 | the prefix group ends at the first digit, or at the end of the text |
| HackPatchForm.DigitEnd | src/components/Hack/HackPatchForm.tsx:62 | a digit group runs to the first non-digit |
| HackPatchForm.DotGroup | src/components/Hack/HackPatchForm.tsx:62 | an optional `.digits` group ends inside the text |
| HackPatchForm.NonDigitEndUnique | src/components/Hack/HackPatchForm.tsx:62 | any position with only non-digits before it and a digit (or the end) at it is where the prefix ends |
| HackPatchForm.DigitEndUnique | src/components/Hack/HackPatchForm.tsx:62 | any position with only digits before it and a non-digit (or the end) at it is where a digit group ends |
| HackPatchForm.DotGroupSpan | src/components/Hack/HackPatchForm.tsx:62 | an optional group is present exactly when a dot and a digit follow, and it spans the dot and its digits |
| HackPatchForm.DotGroupAt | src/components/Hack/HackPatchForm.tsx:62 | a text with the given dot group at a position is scanned to that group |
| HackPatchForm.ScanFacts | src/components/Hack/HackPatchForm.tsx:62 | for a text with a digit, the scan finds a non-empty major group right after the prefix |
| HackPatchForm.SoundJoined | src/components/Hack/HackPatchForm.tsx:62 | the groups found by the scan put back together give the text |
| HackPatchForm.SoundHead | src/components/Hack/HackPatchForm.tsx:62 | the prefix found has no digit and the major group is a non-empty run of digits |
| HackPatchForm.SoundTail | src/components/Hack/HackPatchForm.tsx:62 | the suffix found does not start with a digit, nor with `.digit` when the patch group is absent |
| HackPatchForm.MatchVersionSound | src/components/Hack/HackPatchForm.tsx:62 | the pattern fails exactly on a text without a digit, and a match it returns satisfies every constraint of the pattern |
| HackPatchForm.JoinedSlices | src/components/Hack/HackPatchForm.tsx:62 | each group sits at its expected position in the reassembled text |
| HackPatchForm.MatchVersionUnique | src/components/Hack/HackPatchForm.tsx:62 | any grouping that satisfies the pattern is the one the match returns |
| HackPatchForm.UniqueGroups | src/components/Hack/HackPatchForm.tsx:62 | a valid grouping's minor and patch groups are the ones the scan finds |
| HackPatchForm.UniqueMinor | src/components/Hack/HackPatchForm.tsx:62 | a valid grouping's minor group is the one the scan finds |
| HackPatchForm.UniquePatch | src/components/Hack/HackPatchForm.tsx:62 | a valid grouping's patch group is the one the scan finds |
| HackPatchForm.Reassemble | src/components/Hack/HackPatchForm.tsx:62 | a valid grouping's suffix is the text after its groups |
| HackPatchForm.UniquePrefix | src/components/Hack/HackPatchForm.tsx:62 | a valid grouping's prefix ends where the scan's does |
| HackPatchForm.UniqueMajor | src/components/Hack/HackPatchForm.tsx:62 | a valid grouping's major group is the one the scan finds |
| HackPatchForm.MajorEnd | src/components/Hack/HackPatchForm.tsx:62 | the major group ends where the scan's digit run ends |
| HackPatchForm.GroupEnds | src/components/Hack/HackPatchForm.tsx:62 | the optional groups of a valid grouping end where the scan's do |
| HackPatchForm.SuggestionWhen | src/components/Hack/HackPatchForm.tsx:57-71 | a label is suggested exactly when the input is blank and the trimmed current version holds a digit |
| HackPatchForm.RenderMatches | src/components/Hack/HackPatchForm.tsx:62-69 | a printed label parses back into its prefix, its three numbers and its suffix |
| HackPatchForm.RenderIsMatch | src/components/Hack/HackPatchForm.tsx:62-69 | a printed label with a digit-free prefix and a suffix not starting with a digit matches the pattern with those groups |
| HackPatchForm.SuggestionReparses | src/components/Hack/HackPatchForm.tsx:57-71 | the suggested label parses back with the same prefix and suffix, major and minor without leading zeros (minor `0` when absent) and the patch number one higher |
| HackPatchForm.SuggestionIsNext | src/components/Hack/HackPatchForm.tsx:57-71 | for a blank input, the suggestion is the matched current version with missing parts as 0 and the patch number plus one |
| HackPatchForm.CanonicalGroup | src/components/Hack/HackPatchForm.tsx:65-67 | a group's value printed back is the group without leading zeros, or `0` when absent |
| HackPatchForm.NextVersionMatch | src/components/Hack/HackPatchForm.tsx:62-69 | the next label matches the pattern with the old prefix and suffix and canonical numbers |
| HackPatchForm.NextOfRendered | src/components/Hack/HackPatchForm.tsx:65-69 | the label after a printed one is the same with the patch number plus one |
| HackPatchForm.GroupOfShow | src/components/Hack/HackPatchForm.tsx:65-67 | a printed number is a numeral whose value is that number |
| HackPatchForm.RenderTrimmed | src/components/Hack/HackPatchForm.tsx:60-69 | a printed label whose prefix and suffix have no outer whitespace is its own trim |
| HackPatchForm.TrimmedGroups | src/components/Hack/HackPatchForm.tsx:60-62 | the groups of a trimmed text have no whitespace on its outer ends |
| HackPatchForm.OuterGroups | src/components/Hack/HackPatchForm.tsx:60-62 | a trimmed text's first and last characters are not whitespace, so neither are its outer groups' |
| HackPatchForm.SuggestionAdvances | src/components/Hack/HackPatchForm.tsx:57-71 | taking the suggestion as the next current version advances the patch number once more, with prefix, major, minor and suffix kept |
| HackPatchForm.SuggestAfterRendered | src/components/Hack/HackPatchForm.tsx:57-71 | a printed label as the current version is followed by the same label with the next patch number |
| HackPatchForm.SubmittedLabelIsNew | src/components/Hack/HackPatchForm.tsx:47-50 | a form that can be submitted has a non-blank trimmed label that equals no existing one |
| HackPatchForm.TakenBlocksSubmit | src/components/Hack/HackPatchForm.tsx:47-50 | surrounding whitespace does not get a taken label past the check, and a taken label never passes the submit gate |
| HackPatchForm.DeltaModeThreshold | src/components/Hack/HackPatchForm.tsx:131 | delta mode holds up to 4 MiB and not above, and a smaller base ROM keeps it |
| HackPatchForm.PatchBaseNameShape | src/components/Hack/HackPatchForm.tsx:133 | a generated name is the slug, a dash, then a non-empty safe part no longer than the label, equal to the label exactly when the label is already safe |
| HackPatchForm.PatchBaseNameDefault | src/components/Hack/HackPatchForm.tsx:133 | with no label typed the generated name is `<slug>-patch` |
| HackPatchForm.GenerateSpec | src/components/Hack/HackPatchForm.tsx:105-142 | generation never stays generating; ready exactly when every step succeeds, and then the file gets the generated name and no error; other outcomes keep the file; a failure always carries a message; a missing base ROM is the one case that ends idle with a message |
| HackPatchForm.GeneratedSubmittable | src/components/Hack/HackPatchForm.tsx:48-50 | after a successful generation the form in ROM mode can be submitted exactly when the label is non-blank and new |
| HackPatchForm.ImportMessageSpec | src/components/Hack/HackPatchForm.tsx:86-103 | the form reports nothing exactly when no file was chosen or the file is recognised as the hack's own base ROM |
| HackPatchForm.SubmitOrder | src/components/Hack/HackPatchForm.tsx:144-160 | presign comes first; the upload happens exactly when presign answered ok; confirmation, with presign's object key and the trimmed label, happens exactly when the upload did not throw |
| HackPatchForm.SubmitVerdict | src/components/Hack/HackPatchForm.tsx:144-160 | the page moves on, to the address confirmation gave, exactly when all three steps succeed; otherwise an error is always shown |
| HackPatchForm.PutStatusIgnored | src/components/Hack/HackPatchForm.tsx:151 | the status of the upload response makes no difference to a submission |
| HackPatchForm.Exchange | src/components/Hack/HackPatchForm.tsx:148-159 | the awaited calls of a submission, run one after the other, make the calls, give the error and redirect as `SubmitRun` decides |
| HackPatchForm.PatchForm.constructor | src/components/Hack/HackPatchForm.tsx:24-79 | the form starts in BPS mode with no file, idle generation, no errors and the suggested label for the current version |
| HackPatchForm.PatchForm.CurrentVersionChanged | src/components/Hack/HackPatchForm.tsx:57-71 | a new current version re-runs the suggestion on the label; the same one leaves the label alone; nothing else changes |
| HackPatchForm.PatchForm.SetVersion | src/components/Hack/HackPatchForm.tsx:175 | typing replaces the label and changes nothing else |
| HackPatchForm.PatchForm.SetPatchFile | src/components/Hack/HackPatchForm.tsx:207-211 | choosing or clearing a `.bps` file in BPS mode sets the patch file, after which the form can be submitted exactly when a file is chosen, the label is non-blank and new, and no submission is under way |
| HackPatchForm.PatchForm.SetPublish | src/components/Hack/HackPatchForm.tsx:269 | the checkbox sets whether the version is published on upload and changes nothing else |
| HackPatchForm.PatchForm.SetPatchMode | src/components/Hack/HackPatchForm.tsx:73-79 | switching mode drops the patch file and resets generation; choosing the same mode changes nothing |
| HackPatchForm.PatchForm.OnUploadBaseRom | src/components/Hack/HackPatchForm.tsx:86-103 | choosing a base ROM sets only the generation error, as `ImportMessage` decides |
| HackPatchForm.PatchForm.OnUploadModifiedRom | src/components/Hack/HackPatchForm.tsx:105-142 | choosing a modified ROM sets the generation status, its error and the patch file as `GenerateRun` decides |
| HackPatchForm.PatchForm.OnSubmit | src/components/Hack/HackPatchForm.tsx:144-160 | a form that cannot be submitted does nothing; otherwise the calls, the error and the redirect are those of `SubmitRun` on the trimmed label, and the form ends not submitting |

## Left out

- Server actions (`getPatchDownloadUrl`, `updatePatchVersion`, publish, archive, restore, rollback, presign and confirm) are not modelled as code. Each reply is a parameter of the operation that awaits it.
- The storage client, `fetch`, `window.open`, `window.location`, `alert` and `Date.now()` are not modelled. Their results are parameters, and their effects are recorded in fields: `windows`, `alerts` and `redirect`.
- BPS parsing and building, the SHA-1 digest, the CRC-32 read from a patch and the `BinFile` wrapper are not modelled. They are opaque parameters: the source checksum, the hash outcome and the builder's error.
- Parsing the CRC hex string of the base-ROM table is not modelled, so `NaN` does not arise. The table entry carries the number.
- Version timestamps are compared as integers. Parsing `created_at` strings into `Date`, and `NaN` from a malformed date, are not modelled.
- Text.ShowNat prints exact decimals. JavaScript's rounding and exponent notation for numbers above 2^53 are not modelled.
- Text.Lower folds only ASCII letters. Unicode case mapping is not modelled.
- The changelog editor, Markdown rendering, HTML layout, focus effects and the scroll lock of open dialogs are presentation, so they are not modelled.
- The browser's base-ROM store (`isLinked`, `hasPermission`, `hasCached`, `ensurePermission`) and `onGrantPermission` are not modelled. They only change what the form displays, and the import result is a parameter.
- The re-upload dialog computes a delta-mode flag, but it is not observable in the model. The same 4 MiB threshold is modelled by HackPatchForm.DeltaMode.
- The five dialog booleans of the actions panel are modelled as one optional `dialog`. Only one of them can be opened at a time from the buttons.
- Interleavings of concurrent async handlers are not modelled. Each handler runs from start to finish, and the `loading` and `generating` flags it sets are visible only in the middle.
- A missing error string from a server is modelled as the empty string, which JavaScript's `||` treats the same way.
- VersionActions.ActionPanel.HandleReupload: does not check the Upload button's disabled state itself. The button is the only caller, and the gate is modelled separately as VersionActions.UploadBlocked.
- VersionActions.ActionPanel.SetPatchMode: keeps the checksum status when the mode changes, as the source does. A stale `invalid` verdict therefore keeps Upload disabled after a ROM generation in the other mode.
- VersionList.ListState.ActionComplete: does not model `router.refresh()`, so the list of versions passed in is not reloaded; the model keeps the list it was built with.
- The version list page, the hack list and the card and modal primitives are not part of this model.
