# Verification of z3rm's codecs, updaters and issue scripts

A Dafny model of five parts of the repository, with proofs about every input, run or reachable state.

**The TCF consent string** (`docs/theme/c15t@2.0.0-rc.3.js`). Bits, web-safe Base64, vendor vectors with their two
forms, publisher restrictions, the field and segment codecs, the dotted string, and the pre-encoder. Modules `Bits`,
`Base64Url`, `Vector`, `VendorVector`, `VectorLength`, `VendorList`, `Restrictions`, `Fields`, `Segments`, `TcString`,
`PreEncoder`, `Encodable`, and `Layout`, which says bit by bit where everything stands. Three properties are false of the code, and the model keeps the code. Encoding a vendor
vector can throw although every id fits its width: `EncodeThrowsExactly` gives the exact condition and
`OverflowExists` the sets. It takes more bits than the shorter of its two forms exactly under the condition of
`LongerIff`. A model whose consent-manager id is 0 or 1 encodes but is refused when decoded, a new model among them
(`DefaultRefused`): `GoesThroughIff` is the exact condition for a model to go through.

**The Windows update helper** (`crates/auto_update_helper/src/updater.rs`). A file tree, the job list, retries with
their time limit, and rollback. Modules `FileTree`, `Jobs`, `UpdateRuns`, `UpdateResults`, `PerformUpdate`,
`UpdateCompletes`, `RollbackCompletes`, `RolledBackTree`, `InstalledTree`. What a completed update leaves, path by
path, is `CompletedLeaves`. Rollback restores the tree exactly when `old`, `x64` and
`arm64` were absent (as far as the jobs got): `RollbackExact`. What it leaves otherwise, path by path, is
`RollbackLeaves`. It completes at all exactly under the condition of `RollbackCompletesIff`; a console in `x64`, which
a completed update leaves there, prevents it (`NextUpdateStuck`). `CompletedIff` says which trees an update completes
from.

**The guild's stale sweep** (`script/github-guild-board.py`). The sweep and the assignment events as steps of a timed
protocol. Modules `GuildBoard`, `GuildSafety`. The comment in `run_stale` says that check-ins from an earlier stint
are ignored and that a nudge only follows renewed silence, so that a clear comes after 14 and another 7 quiet days.
The sweep looks at the first guild member and clears them all, and asks for membership anew each time. Of every member
it removes, and without quoted markers, the promise holds exactly if no two users are ever members (`PromiseIff`);
that no two are at the same time is not enough (`SuccessionBreaksIt`). With quoted markers it holds only if nobody
ever is (`QuotesPromiseIff`).

**The auto-updater** (`crates/auto_update/src/auto_update.rs`). The polling state machine, the version rule, the cache
of remote servers and the download loop. Modules `Versions`, `AutoUpdater`, `RemoteCache`, `Download`. The version
rule accepts only newer versions exactly when the current version is a pre-release or has no build metadata
(`AcceptedIsNewer`), and refuses some newer version exactly when it is a pre-release (`RefusesNewer`).

**Printers and parsers** (the scripts on duplicate issues and the release-notes converter). The magnet report and its
parser, the bot comment and its parser, and the list markup. Modules `Magnets`, `MagnetReport`, `BotComment`,
`ReleaseNotes`, with `Text`, `Words` and `Decimal`. A note in the printer calls the parser `fetch_duplicate_magnets`;
its name is `parse_duplicate_magnets`. The converter's lists are not always balanced; `BalancedIff` says exactly when.

Where the source changes things step by step, a method or a class does so too, and its contract ties it to a function;
the laws are lemmas about that function. `dafny verify dfyconfig.toml` checks the project.

## Model

| member | source | states |
|---|---|---|
| `Bits.IntRoundTrip` | docs/theme/c15t@2.0.0-rc.3.js:1 | an integer encodes exactly when it is not negative and fits the width; the encoding then has that width and decodes to the integer |
| `Bits.IntDecodeEncode` | docs/theme/c15t@2.0.0-rc.3.js:1 | encoding the value of any non-empty bit string at its own length gives the bit string back |
| `Bits.TakeEncoded` | docs/theme/c15t@2.0.0-rc.3.js:1 | an encoded integer followed by any bits is read back and leaves exactly those bits |
| `Base64Url.RoundTrip` | docs/theme/c15t@2.0.0-rc.3.js:1 | decoding an encoded non-empty bit string gives it back padded with zeros to a multiple of 24; the text has a length divisible by 4 and stays in the alphabet |
| `Base64Url.RoundTripBack` | docs/theme/c15t@2.0.0-rc.3.js:1 | re-encoding decoded text gives the text back if and only if its length is a multiple of 4 |
| `Base64Url.FirstChar` | docs/theme/c15t@2.0.0-rc.3.js:1 | the first character alone decodes to the first six bits, which is what the segment choice looks at |
| `Base64Url.EncodeBits` | docs/theme/c15t@2.0.0-rc.3.js:1 | the encoding loop computes the encoding that the round trips are about, including the error on an empty input |
| `Base64Url.DecodeString` | docs/theme/c15t@2.0.0-rc.3.js:1 | the decoding loop computes the decoding, including the error on a character outside the alphabet |
| `Vector.MaxId` | docs/theme/c15t@2.0.0-rc.3.js:1 | the largest id of a set, 0 for the empty set |
| `Vector.Vector.constructor` | docs/theme/c15t@2.0.0-rc.3.js:1 | a new vector is empty with maxId 0 |
| `Vector.Vector.Set` | docs/theme/c15t@2.0.0-rc.3.js:1 | adds a positive id, refuses others, resets the cached length, and keeps maxId the maximum of the set |
| `Vector.Vector.Unset` | docs/theme/c15t@2.0.0-rc.3.js:1 | removes an id and keeps maxId the maximum of the set, searching downwards when the maximum goes |
| `Vector.Vector.Empty` | docs/theme/c15t@2.0.0-rc.3.js:1 | empties the set and keeps the invariant |
| `VendorVector.CoverAllRuns` | docs/theme/c15t@2.0.0-rc.3.js:1 | the ranges emitted for a vendor set cover exactly that set |
| `VendorVector.EntriesRoundTrip` | docs/theme/c15t@2.0.0-rc.3.js:1 | encoded range entries followed by any bits decode to the union of their ranges and leave those bits |
| `VendorVector.FieldRoundTrip` | docs/theme/c15t@2.0.0-rc.3.js:1 | the bit-field form of a set reads back as the set |
| `VendorVector.RoundTrip` | docs/theme/c15t@2.0.0-rc.3.js:1 | an encoded vendor vector followed by any trailing bits decodes to the same id set and to a bit length equal to the encoded length, whichever form was chosen |
| `VendorVector.EstimateBound` | docs/theme/c15t@2.0.0-rc.3.js:1 | the running size estimate grows by at least 16 bits for each range emitted, and by exactly 16 when all ids are isolated |
| `VendorVector.EncodeThrowsExactly` | docs/theme/c15t@2.0.0-rc.3.js:1 | encoding throws if and only if maxId exceeds 65535, or maxId is at least 65533 and the set is 4096 isolated ids |
| `VendorVector.OverflowExists` | docs/theme/c15t@2.0.0-rc.3.js:1 | for each maxId from 65533 to 65535 there is a set whose range count overflows twelve bits |
| `VendorVector.EncodeRangeList` | docs/theme/c15t@2.0.0-rc.3.js:1 | the loop over the ranges emits the entries in order |
| `VendorVector.BuildRangeEncoding` | docs/theme/c15t@2.0.0-rc.3.js:1 | count followed by entries, with the overflow error |
| `VendorVector.EncodeVector` | docs/theme/c15t@2.0.0-rc.3.js:1 | the single pass over the ids, with its size estimate and its change of form, computes the encoding |
| `VendorVector.SetRange` | docs/theme/c15t@2.0.0-rc.3.js:1 | setting a range adds exactly its ids; a range from 0 is refused and sets nothing |
| `VendorVector.DecodeField` | docs/theme/c15t@2.0.0-rc.3.js:1 | the loop over a bit field collects its set positions and records its length |
| `VendorVector.ReadRanges` | docs/theme/c15t@2.0.0-rc.3.js:1 | the decoding loop at an offset agrees with decoding the remaining bits, in its result, its error and the ids it has set when it ends |
| `VendorVector.ReadEntry` | docs/theme/c15t@2.0.0-rc.3.js:1 | one entry at an offset, with its flag and its one or two ids, and the offset of the next |
| `VendorVector.ReachedBetween` | docs/theme/c15t@2.0.0-rc.3.js:1 | a failed decoding has only added ids, and a successful one has set exactly its result |
| `VendorVector.DecodeVector` | docs/theme/c15t@2.0.0-rc.3.js:1 | the decoder returns a valid vector with the ids and bit length of the decoding, or its error |
| `VectorLength.EncodedLength` | docs/theme/c15t@2.0.0-rc.3.js:1 | the length of an encoded vector: header and maximum in field form; header, count, 17 bits for a single id and 33 for a longer run in range form |
| `VectorLength.OneId` | docs/theme/c15t@2.0.0-rc.3.js:1 | the length for a single id x: 17 + x bits up to 45, 46 bits above |
| `VectorLength.EstimateIs` | docs/theme/c15t@2.0.0-rc.3.js:1 | the running estimate is the size of range form so far, without the flag bit of each single id |
| `VectorLength.UseRangeIff` | docs/theme/c15t@2.0.0-rc.3.js:1 | range form is chosen if and only if the maximum exceeds 45 and 16 bits for each single id and 33 for each longer run are less than the maximum and four |
| `VectorLength.LongerIff` | docs/theme/c15t@2.0.0-rc.3.js:1 | the encoder takes more bits than the shorter of the two forms if and only if the maximum, above 45, lies in an exact window where the estimate errs, or, up to 45, exceeds 12 and 17 for each single id and 33 for each longer run |
| `VectorLength.LongerForm` | docs/theme/c15t@2.0.0-rc.3.js:1 | the form wrongly chosen is range form above 45 and field form up to it |
| `VectorLength.LongerExists` | docs/theme/c15t@2.0.0-rc.3.js:1 | counterexample above 45: every sixteenth id up to 157 takes 199 bits where field form takes 174 |
| `VectorLength.LongerBelowThreshold` | docs/theme/c15t@2.0.0-rc.3.js:1 | counterexample up to 45: the id 45 alone takes 62 bits where range form takes 46; the id 46 alone takes 46 where field form takes 63 |
| `Restrictions.SpansExact` | docs/theme/c15t@2.0.0-rc.3.js:1 | spans may cover unlisted ids, but a listed vendor inside a span is one of the restricted vendors |
| `Restrictions.SpansComplete` | docs/theme/c15t@2.0.0-rc.3.js:1 | every restricted vendor lies in some span |
| `Restrictions.IsOkMeans` | docs/theme/c15t@2.0.0-rc.3.js:1 | which restrictions a list allows: type 0 for a purpose declared on either basis, type 1 for a flexible purpose declared on legitimate interest, type 2 for a flexible purpose declared on consent |
| `Restrictions.AttachKeeps` | docs/theme/c15t@2.0.0-rc.3.js:1 | attaching a list keeps every restriction and of its vendors exactly those that the list allows; valid keys have a purpose from 1 on and a type of 0, 1 or 2 |
| `Restrictions.OpeningsEmitted` | docs/theme/c15t@2.0.0-rc.3.js:1 | the number written in front of the spans is the number of spans |
| `Restrictions.SpanBoundaries` | docs/theme/c15t@2.0.0-rc.3.js:1 | a restricted vendor ends a range if and only if it is the last, or a listed vendor lies between it and the next, or none is listed behind it up to the last; ranges start at the first vendor and behind such ends, and nowhere else |
| `Restrictions.DecodeEncoded` | docs/theme/c15t@2.0.0-rc.3.js:1 | encoded restrictions followed by any bits decode to the spanned restrictions and the encoded length |
| `Restrictions.RoundTrip` | docs/theme/c15t@2.0.0-rc.3.js:1 | decoding encoded restrictions and attaching the same vendor list gives back every non-empty restriction with exactly its vendors |
| `Restrictions.PurposeRestrictionVector.constructor` | docs/theme/c15t@2.0.0-rc.3.js:1 | a new vector has no restrictions and no vendor list |
| `Restrictions.PurposeRestrictionVector.Add` | docs/theme/c15t@2.0.0-rc.3.js:1 | a vendor is added under its key exactly when the list allows it and the key is valid; an invalid key is an error; keys stay distinct |
| `Restrictions.PurposeRestrictionVector.SetGvl` | docs/theme/c15t@2.0.0-rc.3.js:1 | attaching the first vendor list drops what it does not allow; a second attachment changes nothing |
| `Restrictions.CollectRanges` | docs/theme/c15t@2.0.0-rc.3.js:1 | the loop that opens and closes ranges computes the spans and counts them |
| `Restrictions.EncodeRestriction` | docs/theme/c15t@2.0.0-rc.3.js:1 | one restriction: purpose, type, number of ranges, ranges |
| `Restrictions.EncodeRestrictions` | docs/theme/c15t@2.0.0-rc.3.js:1 | the loop over all restrictions computes the encoding of the vector |
| `Restrictions.DecodeRestrictions` | docs/theme/c15t@2.0.0-rc.3.js:1 | the decoder returns a valid vector with the decoded restrictions and bit length, or the error |
| `Restrictions.ReadItems` | docs/theme/c15t@2.0.0-rc.3.js:1 | the loop over one restriction at an offset agrees with decoding the remaining bits |
| `Restrictions.AddSpan` | docs/theme/c15t@2.0.0-rc.3.js:1 | adding every vendor of a span adds exactly the span |
| `Fields.LangRoundTrip` | docs/theme/c15t@2.0.0-rc.3.js:1 | two letters decode to their upper-case forms |
| `Fields.DecisecondsMeans` | docs/theme/c15t@2.0.0-rc.3.js:1 | a time is written as the nearest number of deciseconds, a half going up |
| `Fields.FixedVectorRoundTrip` | docs/theme/c15t@2.0.0-rc.3.js:1 | a fixed-width vector keeps exactly the ids up to its width |
| `Fields.FixedFieldRoundTrip` | docs/theme/c15t@2.0.0-rc.3.js:1 | every fixed-width field decodes to its normal form and has exactly its width |
| `Fields.VariableFieldRoundTrip` | docs/theme/c15t@2.0.0-rc.3.js:1 | every variable-length field, followed by anything, decodes to its normal form and ends where it ended |
| `Fields.NormalIffCanonical` | docs/theme/c15t@2.0.0-rc.3.js:1 | a value is its own normal form if and only if its time is whole in deciseconds, its language upper-case, its ids within the width |
| `Segments.FieldsRoundTrip` | docs/theme/c15t@2.0.0-rc.3.js:1 | decoding the encoded field sequence, followed by any bits, restores each field in turn, or fails when the sequence holds a consent-manager id below 2 |
| `Segments.RestoredField` | docs/theme/c15t@2.0.0-rc.3.js:1 | which value each field has afterwards: its normal form if it was emitted with a width, else what the target held |
| `Segments.FieldsReachedMeans` | docs/theme/c15t@2.0.0-rc.3.js:1 | decoding fields that fails has left every field alone that it is not about |
| `Segments.SegmentReachedMeans` | docs/theme/c15t@2.0.0-rc.3.js:1 | the same for a segment: even a failed decode changes only fields of that segment |
| `Segments.AnnouncesItself` | docs/theme/c15t@2.0.0-rc.3.js:1 | the first three bits of every encoded segment select that segment when decoding |
| `Segments.RoundTrip` | docs/theme/c15t@2.0.0-rc.3.js:1 | one segment, through Base64 with its padding, restores all its fields; the core segment also its version, whatever the target had |
| `Text.SplitJoin` | docs/theme/c15t@2.0.0-rc.3.js:1 | splitting at the separator undoes joining when no part holds the separator |
| `TcString.PartsHaveNoDot` | docs/theme/c15t@2.0.0-rc.3.js:1 | no encoded segment holds the separating dot |
| `TcString.RoundTrip` | docs/theme/c15t@2.0.0-rc.3.js:1 | decoding the dotted string of a version-2 model, into any target if it starts with the core segment and else into one of version 2, restores every field of every emitted segment; it fails exactly when the core segment is emitted with a consent-manager id of at most 1 |
| `TcString.RestoredAllField` | docs/theme/c15t@2.0.0-rc.3.js:1 | the value of each field after decoding all segments |
| `TcString.FieldSurvives` | docs/theme/c15t@2.0.0-rc.3.js:1 | an emitted field comes back unchanged if and only if it is canonical |
| `TcString.RestrictionsSurvive` | docs/theme/c15t@2.0.0-rc.3.js:1 | attaching the vendor list to the decoded restrictions gives the non-empty original ones |
| `TcString.SegmentsForAre` | docs/theme/c15t@2.0.0-rc.3.js:1 | which segments are emitted, for each combination of the flags |
| `Layout.IntLayout` | docs/theme/c15t@2.0.0-rc.3.js:1 | bit i of an integer in a width is its binary digit of weight 2 to the width - 1 - i |
| `Layout.TextLayout` | docs/theme/c15t@2.0.0-rc.3.js:1 | four Base64 characters for every 24 bits begun; character i is the one of the web-safe alphabet, written out, for its six bits, with zeros behind the last bit |
| `Layout.FieldLayout` | docs/theme/c15t@2.0.0-rc.3.js:1 | field form: 16 bits for the maximum, a 0, and one bit for each id from 1 to the maximum |
| `Layout.RangeLayout` | docs/theme/c15t@2.0.0-rc.3.js:1 | range form: 16 bits for the maximum, a 1, 12 bits for the number of runs, then the runs |
| `Layout.RunsAreMaximal` | docs/theme/c15t@2.0.0-rc.3.js:1 | the runs of range form are maximal, in ascending order, with a gap between any two |
| `Layout.EntryLayout` | docs/theme/c15t@2.0.0-rc.3.js:1 | an entry: a 0 and 16 bits for a single id, or a 1 and 16 bits for each end |
| `Layout.RestrictionsLayout` | docs/theme/c15t@2.0.0-rc.3.js:1 | restrictions: 12 bits for their number, then each in order |
| `Layout.RestrictionLayout` | docs/theme/c15t@2.0.0-rc.3.js:1 | one restriction: 6 bits for the purpose, 2 for the type, 12 for the number of ranges, then the ranges |
| `Layout.CoreNumbers` | docs/theme/c15t@2.0.0-rc.3.js:1 | the core segment by bit positions: version in 0 to 6, creation and last update in deciseconds in 6 to 42 and 42 to 78, manager id in 78 to 90, its version in 90 to 102, screen in 102 to 108, list version in 120 to 132, policy version in 132 to 138 |
| `Layout.CoreCodesAndPurposes` | docs/theme/c15t@2.0.0-rc.3.js:1 | language at 108, service-specific flag at 138, texts flag at 139, special features in 140 to 152, purpose consents in 152 to 176, legitimate interests in 176 to 200, one treatment at 200, country at 201 |
| `Layout.CoreVendors` | docs/theme/c15t@2.0.0-rc.3.js:1 | from bit 213 on: vendor consents, vendor legitimate interests, restrictions |
| `Layout.VendorSegments` | docs/theme/c15t@2.0.0-rc.3.js:1 | a 1 in three bits and the disclosed vendors; a 2 and the allowed vendors |
| `Layout.PublisherLayout` | docs/theme/c15t@2.0.0-rc.3.js:1 | a 3 in three bits, publisher consents in 3 to 27, legitimate interests in 27 to 51, the number n of custom purposes in 51 to 57, custom consents in the next n bits and custom legitimate interests in the n behind |
| `Layout.StringLayout` | docs/theme/c15t@2.0.0-rc.3.js:1 | the encoded string split at its dots is the Base64 texts of the segments, in order |
| `Encodable.RestrictionsFitIff` | docs/theme/c15t@2.0.0-rc.3.js:1 | restrictions encode if and only if they are fewer than 4096 and each has a purpose below 64, fewer than 4096 ranges and no vendor above 65535 |
| `Encodable.FieldFits` | docs/theme/c15t@2.0.0-rc.3.js:1 | a field encodes if and only if its value fits: numbers and deciseconds in the width, two letters, vendor sets by the exact overflow condition, restrictions as above |
| `Encodable.EncodesIff` | docs/theme/c15t@2.0.0-rc.3.js:1 | a model encodes if and only if every field of every emitted segment fits |
| `Encodable.GoesThroughIff` | docs/theme/c15t@2.0.0-rc.3.js:1 | a version-2 model encodes and decodes again if and only if every emitted field fits and an emitted consent-manager id exceeds 1 |
| `Encodable.DefaultEncodes` | docs/theme/c15t@2.0.0-rc.3.js:1 | a new model, processed for a vendor list, encodes if and only if the list version is below 4096, the policy version below 64 and the language starts with two letters |
| `Encodable.DefaultRefused` | docs/theme/c15t@2.0.0-rc.3.js:1 | counterexample: with any such vendor list, a new model, with the default consent-manager id 0, is processed and encoded and then refused when decoded |
| `TcString.EncodeString` | docs/theme/c15t@2.0.0-rc.3.js:1 | the loop over the segments computes the dotted string |
| `TcString.EncodeSegment` | docs/theme/c15t@2.0.0-rc.3.js:1 | the loop over the fields of a segment computes its bits and their Base64 text |
| `TcString.DecodeSegment` | docs/theme/c15t@2.0.0-rc.3.js:1 | decoding a segment updates the model in place to the decoded fields, or reports the error and leaves the fields in front of the bad one decoded |
| `TcString.DecodeFieldList` | docs/theme/c15t@2.0.0-rc.3.js:1 | the loop over the fields with its running offset agrees with decoding the remaining bits, also in the model that an error leaves |
| `TcString.DecodeOneField` | docs/theme/c15t@2.0.0-rc.3.js:1 | one field: the new offset leaves exactly the bits that the field did not use; an error leaves the model alone |
| `TcString.DecodeString` | docs/theme/c15t@2.0.0-rc.3.js:1 | the whole decoder updates the model to the decoded fields, or reports the error with the model decoded up to it |
| `PreEncoder.Filter` | docs/theme/c15t@2.0.0-rc.3.js:1 | unsetting ids while iterating up to the shrinking maxId still visits every id and leaves exactly the ids that may stay |
| `PreEncoder.AnyRequires` | docs/theme/c15t@2.0.0-rc.3.js:1 | the search over the restrictions finds a flexible vendor's required basis if there is one |
| `PreEncoder.OnlyLiveVendors` | docs/theme/c15t@2.0.0-rc.3.js:1 | what stays are given ids of vendors alive in the list |
| `PreEncoder.ProcessKeeps` | docs/theme/c15t@2.0.0-rc.3.js:1 | id by id: a vendor keeps its consent if and only if it had it, is alive in the list, and declares purposes on consent or, in a service-specific model, is flexible and restricted to consent; legitimate interest likewise, for which special purposes do as well |
| `PreEncoder.ProcessSets` | docs/theme/c15t@2.0.0-rc.3.js:1 | the version becomes 2, the list version and policy version those of the list, purposes 1 and 3 to 6 lose legitimate interest, restrictions lose what the list does not allow unless it was attached before, and every field not named is as it was |
| `PreEncoder.ProcessLanguage` | docs/theme/c15t@2.0.0-rc.3.js:1 | the language becomes the first two characters of the list's, in upper case |
| `PreEncoder.ProcessModel` | docs/theme/c15t@2.0.0-rc.3.js:1 | the processor as it runs, unsetting purposes and filtering both vendor vectors in place, computes that model |
| `PreEncoder.ProcessProcesses` | docs/theme/c15t@2.0.0-rc.3.js:1 | after pre-encoding the model is well typed, its vendor sets are filtered and its restrictions are allowed by the list |
| `PreEncoder.EndToEnd` | docs/theme/c15t@2.0.0-rc.3.js:1 | a pre-encoded model that encodes decodes again to the same vendor consents, legitimate interests and, after attaching the list, restrictions |
| `FileTree.MoveBack` | crates/auto_update_helper/src/updater.rs:70-142 | renaming onto a free path is undone exactly by renaming back |
| `FileTree.CreateRemove` | crates/auto_update_helper/src/updater.rs:30-68 | removing a directory that was just created on a free path restores the tree |
| `FileTree.MoveWellFormed` | crates/auto_update_helper/src/updater.rs:70-142 | a rename keeps every entry inside an existing directory |
| `Jobs.RollbackInverts` | crates/auto_update_helper/src/updater.rs:30-142 | rolling back an applied job whose target was free restores the tree |
| `Jobs.ApplyFrame` | crates/auto_update_helper/src/updater.rs:30-163 | a job changes nothing outside the paths it names |
| `UpdateRuns.TargetsApart` | crates/auto_update_helper/src/updater.rs:167-214 | no two jobs before the cleanup write below the same target, and a target in use is vacated by an earlier move |
| `UpdateRuns.UnwindRestores` | crates/auto_update_helper/src/updater.rs:374-427 | from a clean tree, rolling back any prefix of jobs before the cleanup ends in the initial tree |
| `UpdateRuns.RollbackExact` | crates/auto_update_helper/src/updater.rs:167-214 | rolling back after n jobs restores the initial tree if and only if old was absent (n at least 1), x64 was absent (n at least 15) and arm64 was absent (n at least 16) |
| `UpdateCompletes.PossibleIff` | crates/auto_update_helper/src/updater.rs:167-214 | in every run, the next job can be applied if and only if the initial tree allows it: sources there, places free or a file for a file, no file where a directory is made |
| `UpdateCompletes.CompletedIff` | crates/auto_update_helper/src/updater.rs:366-435 | an undisturbed update completes if and only if the initial tree allows every job, and no update completes from another tree |
| `UpdateCompletes.UndisturbedStops` | crates/auto_update_helper/src/updater.rs:374-405 | an undisturbed update applies exactly the jobs before the first impossible one |
| `UpdateCompletes.ConsoleFailsRollback` | crates/auto_update_helper/src/updater.rs:374-427 | with x64\OpenConsole.exe in place, every update that stops after 15 jobs or more, for whatever reason, ends in a failed rollback |
| `UpdateCompletes.NextUpdateStuck` | crates/auto_update_helper/src/updater.rs:167-214 | after a completed update that brought a console, the next update, in any environment, is not clean and cannot be rolled back once 15 jobs are done |
| `UpdateCompletes.StuckUpdateExists` | crates/auto_update_helper/src/updater.rs:366-435 | a tree whose update completes, and the same tree without install\conpty.dll, whose update ends in a failed rollback |
| `RollbackCompletes.RollbackCompletesIff` | crates/auto_update_helper/src/updater.rs:374-427 | after any run of jobs before the cleanup, an undisturbed rollback completes if and only if, for x64 and arm64, the directory is no file once its job is done, and a console that was there or left in old finds the directory standing |
| `RollbackCompletes.RolledBackIff` | crates/auto_update_helper/src/updater.rs:407-427 | an update that stops before the cleanup, for whatever reason, reports a successful rollback only under that condition on the initial tree, and exactly then if no rollback is disturbed |
| `RollbackCompletes.UndisturbedOutcome` | crates/auto_update_helper/src/updater.rs:366-435 | the outcome of an undisturbed update from the initial tree alone: completed, nothing to roll back, rolled back, or rollback failed |
| `RolledBackTree.RollbackLeaves` | crates/auto_update_helper/src/updater.rs:374-427 | the tree that a completed rollback leaves, path by path, from any tree: old gone, x64 and arm64 gone once their jobs were done, a console that was only in old moved out of it, everything else as it was |
| `RolledBackTree.RolledBackLeaves` | crates/auto_update_helper/src/updater.rs:366-435 | an update that reports a successful rollback has left exactly that tree |
| `UpdateResults.ConsoleBlocksRollback` | crates/auto_update_helper/src/updater.rs:167-214 | if x64\OpenConsole.exe existed, no rollback after 15 or more jobs ever completes |
| `UpdateResults.FilesConserved` | crates/auto_update_helper/src/updater.rs:70-142 | from a clean tree, each content occurs in as many files after every job before the cleanup as at the start |
| `UpdateResults.InstalledFiles` | crates/auto_update_helper/src/updater.rs:192-207 | after all jobs, path by path: z3rm.exe, bin\z3rm.exe, bin\z3rm, conpty.dll and the two consoles are what was below them in install at the start, and nothing else |
| `UpdateResults.OthersUnchanged` | crates/auto_update_helper/src/updater.rs:171-213 | entries outside the named top-level names never change |
| `UpdateResults.CleanedUp` | crates/auto_update_helper/src/updater.rs:208-213 | when the removals succeed, nothing is left below old and install |
| `InstalledTree.OldFilesAside` | crates/auto_update_helper/src/updater.rs:174-190 | from the eleventh job to the cleanup, z3rm.exe, bin\z3rm.exe, bin\z3rm and conpty.dll lie, path by path, at old\z3rm.exe, old\bin\z3rm.exe, old\bin\z3rm and old\conpty.dll |
| `InstalledTree.OldConsolesAside` | crates/auto_update_helper/src/updater.rs:181-188 | the same for the three consoles; one that was not there leaves what was in old |
| `InstalledTree.UpdateLeaves` | crates/auto_update_helper/src/updater.rs:167-214 | the tree after all jobs, path by path, if the removals are undisturbed: the new files at their places, no console at the top, the consoles' directories made, nothing of old, install and updates, everything else as it was |
| `InstalledTree.CompletedLeaves` | crates/auto_update_helper/src/updater.rs:366-435 | a completed update whose removals were undisturbed has left exactly that tree |
| `InstalledTree.ReadyMeans` | crates/auto_update_helper/src/updater.rs:174-207 | what a tree needs for an update to complete, by file name: the four old files with free or replaceable places in old, the same for the consoles that are there, no files where directories are made, and the four new files |
| `InstalledTree.MissingFileGivesUp` | crates/auto_update_helper/src/updater.rs:388-393 | a missing file, any of the eight by name, ends the job at its first attempt |
| `InstalledTree.FileInTheWayRetries` | crates/auto_update_helper/src/updater.rs:394-397 | a file named old keeps the first job trying until time is up |
| `PerformUpdate.AttemptsBounded` | crates/auto_update_helper/src/updater.rs:374-405 | a job is attempted at most 60 times |
| `PerformUpdate.TimedOutAt` | crates/auto_update_helper/src/updater.rs:378-381 | time is up from 3000 milliseconds on |
| `PerformUpdate.BoundReached` | crates/auto_update_helper/src/updater.rs:374-405 | an environment in which every attempt fails and only the sleeps of 50 milliseconds take time reaches exactly 60 attempts |
| `PerformUpdate.RunJobEnds` | crates/auto_update_helper/src/updater.rs:375-405 | a job is applied by the first attempt that works if all before it started in time and failed with an I/O error other than a missing file; it is given up at the first other error or when time is up |
| `PerformUpdate.ForwardEnds` | crates/auto_update_helper/src/updater.rs:374-405 | the jobs go on until one is given up or its message cannot be posted, and not beyond |
| `PerformUpdate.CleanupFinishes` | crates/auto_update_helper/src/updater.rs:144-163 | if messages post and first attempts start in time, a run that reaches the cleanup completes |
| `PerformUpdate.CleanupNotRolledBack` | crates/auto_update_helper/src/updater.rs:374-427 | under those conditions rollback never meets a removal job; otherwise a stop inside the cleanup always ends in a failed rollback |
| `PerformUpdate.FailureRestoresExactly` | crates/auto_update_helper/src/updater.rs:374-427 | after a failure before the cleanup, a rollback that succeeds leaves the initial tree if and only if that tree was clean; undisturbed rollbacks succeed and restore exactly then |
| `PerformUpdate.AllOrNothing` | crates/auto_update_helper/src/updater.rs:366-435 | a clean tree ends either with a completed update or unchanged |
| `PerformUpdate.SuccessInstalls` | crates/auto_update_helper/src/updater.rs:366-435 | a completed update has at each of z3rm.exe, bin\z3rm.exe, bin\z3rm, conpty.dll and the two consoles, path by path, what install had there, and has left unknown names alone |
| `PerformUpdate.Updater.TryJob` | crates/auto_update_helper/src/updater.rs:375-405 | the retry loop of one job: its result, its tree and its number of attempts, at most 60 |
| `PerformUpdate.Updater.PerformUpdate` | crates/auto_update_helper/src/updater.rs:366-435 | the whole driver: forward loop, early return on a failed post, rollback loop, outcome and final tree |
| `GuildBoard.LatestAssignment` | script/github-guild-board.py:164-178 | the latest assignment of the user, if any |
| `GuildBoard.LatestCheckIn` | script/github-guild-board.py:400-406 | the latest comment with the check-in marker, if any |
| `GuildBoard.ScanComments` | script/github-guild-board.py:540-549 | the single pass finds both the latest check-in and the last activity |
| `GuildBoard.DecideOne` | script/github-guild-board.py:510-572 | the cascade of guards for one item decides what the sweep does with it |
| `GuildBoard.FirstMember` | script/github-guild-board.py:519-536 | the member that the sweep looks at is the earliest assignee in the guild |
| `GuildBoard.SweepAllMeans` | script/github-guild-board.py:506-592 | up to the first failing item every item becomes its own sweep and later items stay; the counters are the numbers of items nudged and cleared |
| `GuildBoard.Board.SweepItems` | script/github-guild-board.py:510-592 | the loop over the items, which an error ends |
| `GuildBoard.Board.RunStale` | script/github-guild-board.py:506-592 | without a failing item, every item of the board becomes its own sweep, and the two counters count the nudged and the cleared items |
| `GuildSafety.LastActivityIsLatest` | script/github-guild-board.py:540-549 | last activity is an assignment or reply of the assignee since the latest assignment, and no such event is later |
| `GuildSafety.DecideMeans` | script/github-guild-board.py:551-572 | a nudge happens if and only if the item is watched, no check-in is pending and 14 days passed since the last activity; a clear if and only if it is watched, a check-in is pending and 7 days passed since it |
| `GuildSafety.SweepMeans` | script/github-guild-board.py:551-576 | what a sweep leaves: a clear takes all members off and puts a bug, crash or docs issue into the bug column and a feature into the feature column, an untyped one stays in progress; comments, labels and history are as they were; a nudge only adds the check-in; else nothing changes |
| `GuildSafety.UnassignMeans` | script/github-guild-board.py:427-448 | unassigning a member from an issue in progress moves it to the column of its type; any other unassignment leaves the column; nothing else changes |
| `GuildSafety.AssignMeans` | script/github-guild-board.py:409-424 | a new assignee comes last and is recorded, and a guild member brings the issue into progress; assigning again changes nothing |
| `GuildSafety.NeverBroken` | script/github-guild-board.py:540 | in no run does the sweep meet an assignee without an assignment event |
| `GuildSafety.BoardSweeps` | script/github-guild-board.py:506-592 | a sweep over a board whose issues went through any runs is one more step in each of those runs |
| `GuildSafety.RemovedIff` | script/github-guild-board.py:572 | a sweep takes a user off the issue if and only if it clears and the user is an assigned guild member |
| `GuildSafety.RunCleared` | script/github-guild-board.py:568-576 | in every run, an issue that a sweep clears is afterwards in the column of its type, with no member assigned and all else as it was |
| `GuildSafety.StepQuiet` | script/github-guild-board.py:409-592 | every event keeps: 14 quiet days precede each check-in |
| `GuildSafety.StepAddressed` | script/github-guild-board.py:409-592 | every event keeps: a check-in in the stint of a user who is ever a member is addressed to that user, if at most one such user is assigned |
| `GuildSafety.ClearedOnlyWhenQuiet` | script/github-guild-board.py:506-590 | in every run, whoever a sweep removes, the latest check-in is a week old; it is of the removed member's stint with no activity since, if that is the member the sweep looked at or the only one; with markers only from the bot and never two users assigned who are ever members, 14 quiet days came before it |
| `GuildSafety.PromiseIff` | script/github-guild-board.py:506-590 | for issues of any kind, with membership asked anew each time: no run without quoted markers removes any member before 14 + 7 quiet days of that member, if and only if no two users are ever members |
| `GuildSafety.QuotesPromiseIff` | script/github-guild-board.py:540-549 | with quoted markers allowed, the promise about every removed member holds if and only if nobody is ever a member |
| `GuildSafety.CheckInsSeparated` | script/github-guild-board.py:524-565 | in every run, between two check-ins the addressee of the later one replied or was assigned again |
| `GuildSafety.HoldStopsSweep` | script/github-guild-board.py:524-530 | in every run, after the hold label was set or a closing pull request linked, and until that is undone, a sweep leaves the issue as it is |
| `GuildSafety.SilentIsNudged` | script/github-guild-board.py:551-566 | in every run, a watched silent member without a later check-in is greeted by any sweep from 14 days after the last activity on, and a sweep before that does nothing |
| `GuildSafety.SilentIsRemoved` | script/github-guild-board.py:568-576 | in every run, a watched member silent since the latest check-in is removed with every other guild member by any sweep from 7 days after it on, the issue going to the column of its type and else staying as it was, and a sweep before that does nothing |
| `GuildSafety.PendingStays` | script/github-guild-board.py:551-572 | while a member is watched and silent, no event and no sweep in between changes the pending check-in |
| `GuildSafety.SilenceEndsAssignment` | script/github-guild-board.py:506-590 | in every run, a watched member who stays silent is gone after two sweeps, one from 14 days after the last activity on and one a week or more later, whatever else happens in between while that member is watched |
| `GuildSafety.TwoMembersBreakIt` | script/github-guild-board.py:533-572 | for any two members of any guild and any kind of issue: a run in which the second is cleared 8 days after the assignment, on a check-in addressed to the first, who has left since |
| `GuildSafety.ClearedAlong` | script/github-guild-board.py:572 | for any two members of any guild and any kind of issue: a run in which one is removed a day after the assignment, along with the other, on a check-in from before that stint |
| `GuildSafety.SuccessionBreaksIt` | script/github-guild-board.py:519-520 | for any two users and any kind of issue: one is the only member until day 20 and the other after, and the other is cleared 8 days after the assignment on a check-in addressed to the first |
| `GuildSafety.QuotesBreakIt` | script/github-guild-board.py:542-546 | for any member of any guild and any kind of issue: one who quotes the marker is cleared 8 days after the assignment |
| `Versions.LessTransitive` | crates/auto_update/src/auto_update.rs:968-976 | the version order is transitive |
| `Versions.LessTotal` | crates/auto_update/src/auto_update.rs:968-976 | the version order is irreflexive and total |
| `Text.StrLessMeans` | crates/auto_update/src/auto_update.rs:1065-1067 | strings compare by their first difference, and a proper prefix comes first |
| `Versions.LessMeans` | crates/auto_update/src/auto_update.rs:968-976 | what decides between two versions: the first that differs of major, minor, patch, pre-release and build; a release comes after its pre-releases, numeric identifiers before others, a shorter list before its extension |
| `Versions.AcceptedIsNewer` | crates/auto_update/src/auto_update.rs:968-976 | every accepted version is newer than the current one if and only if the current one is a pre-release or has no build metadata |
| `Versions.RefusesNewer` | crates/auto_update/src/auto_update.rs:968-976 | the rule refuses some newer version if and only if the current one is a pre-release |
| `AutoUpdater.RunSingleFlight` | crates/auto_update/src/auto_update.rs:509-582 | in every run at most one update is in flight and the installed version is never changed |
| `AutoUpdater.NewerIsGood` | crates/auto_update/src/auto_update.rs:872-906 | an accepted version exceeds the cleared installed one, also when it is compared with a version staged before |
| `AutoUpdater.InstallsExceedInstalled` | crates/auto_update/src/auto_update.rs:747-906 | in every run off the nightly channel, every staged version exceeds the cleared installed one |
| `AutoUpdater.RunTruthful` | crates/auto_update/src/auto_update.rs:747-869 | in every run the status names no other version as updated than the last one staged |
| `AutoUpdater.InstallsIncrease` | crates/auto_update/src/auto_update.rs:747-869 | in every run off the nightly channel with releases free of build metadata and no failed check or dismissal, staged versions strictly increase |
| `AutoUpdater.NextExceedsIff` | crates/auto_update/src/auto_update.rs:747-906 | after any run with such releases and no update in flight, what is staged next exceeds the last staged version if and only if the status still names that version |
| `AutoUpdater.CycleShows` | crates/auto_update/src/auto_update.rs:747-869 | one whole check: it shows checking, then downloading, installing and updated with the version if the rule accepts it, and installs it once; else it returns to the update shown before, or to idle |
| `AutoUpdater.NightlyInstalls` | crates/auto_update/src/auto_update.rs:882-893 | on the nightly channel a check installs every version but the one last installed, or, if the status names none, every version but one whose last build part is the running commit |
| `AutoUpdater.NightlyRepeatsIff` | crates/auto_update/src/auto_update.rs:882-893 | after any nightly run with no update in flight, the last version is not installed again if and only if the status still names it, or names none and it is a build of the running commit |
| `AutoUpdater.DismissedMeans` | crates/auto_update/src/auto_update.rs:509-573 | in every run the dismissed status is the one dismissed last, until a manual poll |
| `AutoUpdater.DismissalRepeatsInstall` | crates/auto_update/src/auto_update.rs:575-582 | after a dismissal, in any run, the next staged version need not be newer: the same one is staged again |
| `AutoUpdater.FailedCheckRepeatsInstall` | crates/auto_update/src/auto_update.rs:509-556 | after a failed check, automatic or manual, the same version is staged again |
| `AutoUpdater.TaskKeepsCheckType` | crates/auto_update/src/auto_update.rs:509-556 | in every run, the update in flight keeps the check type of the poll that started it |
| `AutoUpdater.CheckTypeMeans` | crates/auto_update/src/auto_update.rs:509-556 | in every run the updater says it checks by hand if and only if a poll was manual that started the latest update or came after |
| `AutoUpdater.FailureShownIff` | crates/auto_update/src/auto_update.rs:509-556 | in every run, a failed check shows an error if and only if the Linux check found a dependency missing or the poll that started it was manual; otherwise, and so for a dependency missing on macOS, it ends idle |
| `AutoUpdater.ManualPollComesTooLate` | crates/auto_update/src/auto_update.rs:509-556 | a manual poll during an automatic check raises the check type, and the check still fails quietly |
| `AutoUpdater.Updater.constructor` | crates/auto_update/src/auto_update.rs:747-869 | the updater starts idle with nothing in flight |
| `AutoUpdater.Updater.StartPolling` | crates/auto_update/src/auto_update.rs:509-556 | a poll starts only when none is pending, and keeps the single flight |
| `AutoUpdater.Updater.DismissNow` | crates/auto_update/src/auto_update.rs:575-582 | dismissing resets the status and says whether it changed |
| `AutoUpdater.Updater.Resume` | crates/auto_update/src/auto_update.rs:747-869 | one step of an update task on a reply, and keeps the single flight |
| `RemoteCache.PositionIsRank` | crates/auto_update/src/auto_update.rs:1065-1067 | the position after sorting is the number of archives that come before |
| `RemoteCache.Cache.Collect` | crates/auto_update/src/auto_update.rs:1038-1059 | the candidates are exactly the archives, the kept one stamped with the present time |
| `RemoteCache.Cache.Cleanup` | crates/auto_update/src/auto_update.rs:1029-1084 | the directory afterwards: exactly the evicted archives are gone, except those whose removal fails |
| `RemoteCache.Cache.RemoveFrom` | crates/auto_update/src/auto_update.rs:1069-1081 | the removal loop skips the first archives and the kept one |
| `RemoteCache.SurvivorsAre` | crates/auto_update/src/auto_update.rs:1029-1084 | what survives is the first `limit` archives by time and path, plus the kept one |
| `RemoteCache.DirectoryAfter` | crates/auto_update/src/auto_update.rs:1029-1084 | the archives left are the survivors and those that could not be removed; other files stay as they are |
| `RemoteCache.OldestEvicted` | crates/auto_update/src/auto_update.rs:1029-1084 | a file that goes is named .gz, is not the kept one, and every other archive that stays is newer, or as new with an earlier path |
| `RemoteCache.DirectoryCount` | crates/auto_update/src/auto_update.rs:1029-1084 | with successful removals the directory holds all archives if the limit is 0 or not exceeded, else `limit`, and one more if and only if the kept archive has `limit` others before it |
| `RemoteCache.DirectoryKeepsLimit` | crates/auto_update/src/auto_update.rs:1029-1084 | if no other archive is dated now or later, exactly `limit` are left of more |
| `Download.ReportsBehave` | crates/auto_update/src/auto_update.rs:1102-1134 | reported fractions lie in 0 to 1, rise through distinct percentages, end at 1, and are 1 to 101 in number, for every chunking |
| `Download.ThrottledCovers` | crates/auto_update/src/auto_update.rs:1121-1129 | every percentage reached is reported, at a fraction of the download that is no later |
| `Download.FractionAt` | crates/auto_update/src/auto_update.rs:1118-1122 | the fraction behind each chunk times the size is the number of bytes so far, or the size if that is less |
| `Download.PercentIs` | crates/auto_update/src/auto_update.rs:1123-1126 | the whole percentage is the fraction rounded down to hundredths |
| `Download.BodyIs` | crates/auto_update/src/auto_update.rs:1113-1118 | the chunks written are those in front of the first empty read |
| `Download.DownloadRelease` | crates/auto_update/src/auto_update.rs:1102-1134 | the loop writes the concatenation of the chunks and sends exactly the throttled reports |
| `Magnets.SortDescending` | script/github-find-top-duplicated-bugs.py:166-167 | the stable sort puts larger keys first |
| `Magnets.SortStable` | script/github-find-top-duplicated-bugs.py:166-167 | elements with equal keys stay in order |
| `Magnets.EntryLineIs` | script/github-find-top-duplicated-bugs.py:173-176 | a printed line: the count padded to two places, the address and the number, with the fixed text written out |
| `Magnets.SectionIs` | script/github-find-top-duplicated-bugs.py:166-176 | a section: an empty line, the heading, an empty line, and a line for each issue, most duplicated first |
| `Magnets.LineIgnored` | script/github-check-new-issue-for-duplicates.py:379-394 | which lines the parser passes over, and that a heading only sets the area |
| `Magnets.CountFound` | script/github-check-new-issue-for-duplicates.py:388-394 | the count is read back from every printed line |
| `Magnets.NumberFound` | script/github-check-new-issue-for-duplicates.py:388-394 | the issue number is read back from every printed line whose address does not hold the marker earlier |
| `Magnets.SectionsScanned` | script/github-check-new-issue-for-duplicates.py:379-407 | the parser's loop over printed sections adds exactly the entries under named areas, in order |
| `MagnetReport.ReportHolds` | script/github-find-top-duplicated-bugs.py:154-176 | the report has a readable line for an issue under an area if and only if the issue has that area, with blanks around the name removed |
| `MagnetReport.ReportOrder` | script/github-find-top-duplicated-bugs.py:154-176 | one section for each area with the sum of its counts; sections by that sum and lines by their count, largest first |
| `MagnetReport.EntriesReflected` | script/github-check-new-issue-for-duplicates.py:395-406 | after any lines that agree on counts, the dictionary holds each number once with exactly its areas, `(unlabeled)` left out |
| `MagnetReport.RoundTrip` | script/github-find-top-duplicated-bugs.py:148-178 | parsing the printed report restores exactly the issues that have a named area: number, count, set of area names without blanks around them, each issue once, most duplicated first |
| `MagnetReport.AreasExact` | script/github-check-new-issue-for-duplicates.py:380-386 | the area names come back as they were if and only if none is blank or has blanks around it |
| `MagnetReport.GroupByArea` | script/github-find-top-duplicated-bugs.py:154-159 | the nested loops fill the groups and their totals |
| `MagnetReport.AppendSection` | script/github-find-top-duplicated-bugs.py:166-176 | one area's heading and lines are appended |
| `MagnetReport.BuildMarkdownBody` | script/github-find-top-duplicated-bugs.py:148-178 | the printing loops compute the report of the round trip |
| `MagnetReport.ParseDuplicateMagnets` | script/github-check-new-issue-for-duplicates.py:361-410 | the parsing loop with its current area and its skipped lines computes the parse of the round trip |
| `BotComment.SplitByState` | script/github-check-new-issue-for-duplicates.py:722-728 | the loop keeps exactly the items of the expected state, in order, and drops the others |
| `BotComment.BucketsDisjoint` | script/github-check-new-issue-for-duplicates.py:713-742 | no issue number is in two of the three lists, for any model output |
| `BotComment.BucketsKeep` | script/github-check-new-issue-for-duplicates.py:713-742 | what is left of the answer, in order and as often as it was there: likely matches that are open, possible ones that are open and not likely, closed ones that are closed |
| `BotComment.PostFilter` | script/github-check-new-issue-for-duplicates.py:713-742 | the filtering of the three lists, one after the other, computes these lists |
| `BotComment.CommentShows` | script/github-check-new-issue-for-duplicates.py:107-171 | every match stands in the comment with its number and explanation, an open one with its cause, a closed one with the remark if it was closed as a duplicate |
| `BotComment.SuggestionIff` | script/github-track-duplicate-bot-effectiveness.py:146-148 | a line suggests an issue if and only if it starts with a dash, a blank, a hash and a digit |
| `BotComment.FreeTextAfterBullet` | script/github-track-duplicate-bot-effectiveness.py:146-148 | a bullet line gives its number, then what the free text behind it adds on further lines |
| `BotComment.RoundTrip` | script/github-check-new-issue-for-duplicates.py:107-171 | reading the built comment back gives the likely, then the possible, then the closed numbers and nothing else if and only if no further line of a shown free text starts like a numbered bullet |
| `BotComment.BuildComment` | script/github-check-new-issue-for-duplicates.py:107-171 | appending the optional sections and joining them computes the comment of the round trip |
| `Decimal.RoundTrip` | script/github-track-duplicate-bot-effectiveness.py:146-148 | a printed number parses back |
| `Decimal.PrintTens` | script/github-find-top-duplicated-bugs.py:173-176 | printing is decimal: one digit below ten, one more digit for ten times as much |
| `ReleaseNotes.DepthLaw` | script/flatpak/convert-release-notes.py:18-54 | after any lines the open-list depth is (in list) + (in fence), less one for each line that was item and fence at once outside both |
| `ReleaseNotes.ContentKept` | script/flatpak/convert-release-notes.py:41-48 | between the tags stands every kept line once and in order: an item, code if it is a fence or behind an odd number of fences, else a paragraph |
| `ReleaseNotes.TagCount` | script/flatpak/convert-release-notes.py:18-54 | as many lists are closed as opened if and only if the number of those lines is 1 when the input ends inside both a list and a fence, and 0 otherwise |
| `ReleaseNotes.NeverNegativeIff` | script/flatpak/convert-release-notes.py:18-54 | no list is closed that is not open, if and only if at every line enough is open for what that line closes |
| `ReleaseNotes.BalancedIff` | script/flatpak/convert-release-notes.py:18-54 | the output is balanced, closing nothing that is not open and leaving nothing open, if and only if there was no line that was item and fence outside both and the input does not end inside both, or there was exactly one, the input ends inside both, and after it one is never outside both and never goes from a list outside a fence straight to a fence line |
| `ReleaseNotes.WellNested` | script/flatpak/convert-release-notes.py:18-54 | if no line is item and fence at once, no prefix closes too many lists, and the output is balanced if and only if the input does not end on a list line inside an unclosed fence |
| `ReleaseNotes.OrphanUnbalances` | script/flatpak/convert-release-notes.py:26-40 | counterexample with the source's tests on lines: an item that is a code fence, then a plain line, closes one list too many |
| `ReleaseNotes.UnclosedFenceUnbalances` | script/flatpak/convert-release-notes.py:26-54 | counterexample: a fence line and then an item leave one list open |
| `ReleaseNotes.CountsAreNotEnough` | script/flatpak/convert-release-notes.py:26-40 | counterexample: five lines whose output opens and closes equally often and still closes a list that is not open |
| `ReleaseNotes.EmitLine` | script/flatpak/convert-release-notes.py:33-51 | one line's tags and the new flags |
| `ReleaseNotes.ConvertBody` | script/flatpak/convert-release-notes.py:18-54 | the loop over the lines computes the output that the laws are about |

## Left out

- TCF: bit strings are sequences of booleans, so the error on characters other than 0 and 1 cannot occur; the Base64 alphabet is given by its ranges.
- TCF: version-1 strings, non-ASCII upper-casing, `customPurposes` as a getter, and JavaScript's NaN and non-integer numbers are not modelled; a language shorter than two characters, which in the source yields text that Base64 refuses, is an encoding error.
- TCF: the keys of restrictions are pairs instead of hash strings, and the vectors inside a model are their id sets.
- The rest of the c15t bundle (translations, stores, cookies, blockers, fetching of the vendor list).
- Updater: file names are an enumeration, so case-insensitive names are not modelled; a failed rename or creation leaves the tree unchanged; a failing removal inside a rollback removes nothing.
- Updater: Restart Manager, message posting (an arbitrary outcome of the environment), the dialog and the launch of the program.
- Guild: one event at a time with strictly increasing times; the network, Slack, comment texts and the weekly report.
- Auto-updater: HTTP, installers and progress values; the replies of the server are arbitrary inputs.
- Auto-updater: build metadata is compared as strings identifier by identifier.
- RemoteCache.Cache.Cleanup: a modification time that cannot be read counts as 0, and paths are ordered as strings.
- Download.ReportsBehave: fractions are exact, because rounding to single precision is not the point; read and write errors are left out.
- Magnets: whitespace is ASCII and `int` accepts ASCII digits only; the introduction of the report is a parameter, one line that is not a heading; an issue's address is a site, `/issues/` and its number.
- MagnetReport.RoundTrip: for distinct issue numbers, area names of one line, and addresses without an earlier `/issues/`, because labels and addresses on GitHub are like that.
- `extract_duplicate_info`, `areas_match` and `filter_magnets_by_areas` are not modelled.
- BotComment: the fixed sentences are a parameter, lines that do not start like a bullet; digits are ASCII.
- ReleaseNotes: cleaning and recognizing a line is a parameter; the counterexamples use the source's tests without links, inline code and escaping.
- Network, GraphQL, pagination and language-model calls of all scripts; their results are arbitrary inputs.
- The command line, askpass, tracing, project-board and extension code, the documentation's page scripts and the build scripts: mostly calls to the operating system, or properties read off one branch.
