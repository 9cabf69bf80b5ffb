# Models of the camera client library and the media command-line tools

This project models the parts of the repository that carry state, loops and wire formats, and
proves what they are for: which bytes, buffers, handles, tags and parameters survive every
run, every interleaving or every round trip.

Each Dafny module follows one component:

- `ConvertingStream` – the stream source of the stagefright `stream` command: a writer and a
  buffer-returning listener that share a queue, with the lock dropped between chunks.
- `AudioPlayer` – the audio callback with seeks racing it.
- `PlayerMessages`, `PlayerTracks`, `SimplePlayer` – the message protocol of SimplePlayer, its
  codec tracks, and the object that drives both.
- `TextWrap` – line breaking in screenrecord's text renderer.
- `FrameOutput` – pixel squeezing and framed packets in screenrecord.
- `Muxer` – the trimming sample loop.
- `Metadata`, `KeyLists`, `CameraMetadata` – the growable metadata buffer, the sorting and set
  difference behind the permission filter, and the object around them.
- `MetadataParcel`, `CaptureParcel` – the aligned metadata blob and the capture result and
  request encodings that nest it.
- `SortedStrings`, `VendorTags`, `VendorTagParcel`, `VendorTagRelay`, `VendorTagDescriptor`, `TagNames` –
  vendor tag descriptors: indexes, wire format, heap objects, and name resolution.
- `Decimal`, `Parameters` – printed integers, pairs and lists, and the flattened parameter
  strings of CameraParameters and CameraParameters2.
- `RecordingHandles` – recording frame handles between service, app and recorder.
- `Common` – shared value types.

Concurrent components are step systems: a `State`, the events that may happen next, an
invariant that every step keeps, and a theorem over every legal run. A class beside each step
system has the fields and loops of the original object, and its methods are proved to perform
exactly those steps. Data formats are pairs of a printer and a parser as functions, related by
round-trip lemmas, with the original loops as methods proved against them.

The environment (codecs, the audio sink, the extractor, the binder, the clock, other threads)
appears as events or as parameters that say what it answers; a method's result is proved for
every such answer.

Where the code does not do what one would expect, the exact condition is proved:

- The permission filter sorts the removed tags as signed integers but subtracts them in
  unsigned order; the key list is right if and only if the removed tags do not straddle 2^31
  (`KeyLists.RemainingKeysExact`).
- CameraParameters2 may list a key twice after unflattening a text that does, and then what is
  set need not be what is got, nor the latest (`Parameters.Set2ThenGet2`,
  `Parameters.SetPair2ThenGetPair2`, `Parameters.LatestSetIsLast`).
- Vendor tags that share section and name can answer lookups differently after a round trip
  (`VendorTagParcel.RoundTrip`); a parcel that repeats a section name can make the reader access
  its section list past the end (`VendorTagParcel.ReadsPastExactly`); and reading into a
  descriptor in use can move its tags to other sections (`VendorTagParcel.OldTagsKeepSections`).
  What was read from a parcel that lists a tag twice cannot be sent on
  (`VendorTagRelay.SentOnExactly`).
- Reading a capture result into a used object can keep a stale physical camera id
  (`CaptureParcel.ResultRoundTrip`), and a request read with a null producer cannot be sent on
  (`CaptureParcel.WritableExactly`).
- A seek can be buried behind the end of the stream (`AudioPlayer.SeekBuriedExactly`).
- SimplePlayer's replies cannot be relied on for a first `setDataSource`, nor for a `reset`
  before the player is prepared, which does nothing (`PlayerMessages.ReplyTellsSuccess`).
- Wrapping steps past the terminator when the last character is wider than its line
  (`TextWrap.DrawBroken`).
- A recording frame released after the camera was disconnected is never closed or returned
  (`RecordingHandles.SettledExactlyOnce`).
- Out-of-order samples can make the trimmed output begin anew
  (`Muxer.OnePieceExactly`).

## Model

| member | source | states |
|---|---|---|
| `ConvertingStream.EveryInterleavingConservesBytes` | cmds/stagefright/stream.cpp:217-272 | in every interleaving of the writer and the listener: bytes queued plus the partly filled buffer plus what is not copied yet are the bytes offered, in order; each buffer is in exactly one of queue, current and listener; what the listener holds is not overwritten; with the lock free a current buffer has 0 < offset < size |
| `ConvertingStream.StepKeepsInv` | cmds/stagefright/stream.cpp:217-272 | each locked section keeps byte conservation, ownership and the offset bound |
| `ConvertingStream.RunTallies` | cmds/stagefright/stream.cpp:217-272 | in every run the bytes offered are those of its writes in order, buffers are used in the order in which they were returned, and end of stream is issued exactly once for each return that reports it |
| `ConvertingStream.ShortOnlyAtEnd` | cmds/stagefright/stream.cpp:246-272 | in every run the buffers queued without being full are no more than the returns that report end of stream |
| `ConvertingStream.EverythingDeliveredAtEnd` | cmds/stagefright/stream.cpp:258-272 | in every run, when a return reports end of stream no buffer is left partly filled and all bytes offered are delivered or not copied yet, so a partial buffer goes out first |
| `ConvertingStream.MyConvertingStreamSource.OnBufferAvailable` | cmds/stagefright/stream.cpp:258-272 | returning a buffer (with or without end of stream) is exactly the protocol step that the theorems above are about, and keeps the invariant |
| `ConvertingStream.MyConvertingStreamSource.WriteChunk` | cmds/stagefright/stream.cpp:220-253 | one locked section of the write loop copies a non-empty prefix and is exactly the protocol step |
| `ConvertingStream.WriteOutIsRun` | cmds/stagefright/stream.cpp:217-256 | a whole write, with any rounds of returned buffers between its chunks, is a legal run of the protocol, so every theorem about runs holds of it |
| `ConvertingStream.MyConvertingStreamSource.WriteData` | cmds/stagefright/stream.cpp:217-256 | a whole write is that write under any schedule of returned buffers; it accepts everything or stays blocked only for want of a buffer |
| `AudioPlayer.StartedInv` | cmds/stagefright/AudioPlayer.cpp:84-119 | a player that has made its first read satisfies the playback invariant, whatever that read gave |
| `AudioPlayer.StepKeepsInv` | cmds/stagefright/AudioPlayer.cpp:471-623 | every locked section, unlocked stretch and outside call keeps the playback invariant |
| `AudioPlayer.PlaybackIsGapFree` | cmds/stagefright/AudioPlayer.cpp:471-623 | for any source and any interleaving of seeks: bytes delivered since the last seek are a gap-free, repeat-free prefix of the payloads obtained since; every buffer is held or was released exactly once; no earlier buffer is used after a seek is taken; a pending seek is for the latest request |
| `AudioPlayer.ReadsGoWhereRequested` | cmds/stagefright/AudioPlayer.cpp:484-525 | in every run, in terms of its events alone: the first read after a look that takes a seek carries the time of the last request before that look; every other read carries none |
| `AudioPlayer.PlaybackFollowsEvents` | cmds/stagefright/AudioPlayer.cpp:471-623 | in every run what was delivered since the last seek taken is a prefix of the payloads that the source gave since that event, and the reads since then asked for what the requests say |
| `AudioPlayer.ResetReleasesEverything` | cmds/stagefright/AudioPlayer.cpp:319-364 | a reset after any run leaves every buffer ever obtained released exactly once, nothing held, no seek pending and the end-of-stream state cleared |
| `AudioPlayer.SeekBuriedExactly` | cmds/stagefright/AudioPlayer.cpp:442-661 | after any run a seek is pending although the stream counts as over, if and only if some requested seek was not taken and later, with no newer request since, the sink reported the end of the stream or (unless offloaded) a failed read was accounted for |
| `AudioPlayer.BuriedUntilNextSeek` | cmds/stagefright/AudioPlayer.cpp:471-481 | once idle at the end of the stream, whatever happens but a new seek changes nothing, so a buried seek is never taken |
| `AudioPlayer.BuriedSeekHappens` | cmds/stagefright/AudioPlayer.cpp:442-661 | two concrete runs in which a seek is buried: one with a failing read under way, one with the sink's report, offloaded or not |
| `AudioPlayer.Player.DoSeekTo` | cmds/stagefright/AudioPlayer.cpp:653-687 | a seek request replaces any earlier one and clears end of stream |
| `AudioPlayer.Player.TakePendingSeek` | cmds/stagefright/AudioPlayer.cpp:486-508 | the loop top is exactly the TakeSeek event of the run: it takes a pending seek, whose time the next read carries, and drops the stashed and the current buffer |
| `AudioPlayer.Player.ReadInput` | cmds/stagefright/AudioPlayer.cpp:510-526 | the stashed first buffer is used before the source is read |
| `AudioPlayer.Player.CopyOut` | cmds/stagefright/AudioPlayer.cpp:582-604 | a used-up buffer is released, otherwise as much as fits goes to the right place of the output |
| `AudioPlayer.Player.FillBuffer` | cmds/stagefright/AudioPlayer.cpp:471-623 | the callback terminates, stays on a legal run, returns in its output exactly the bytes added to what was heard, and comes back short only at end of stream or right after a failed read |
| `TextWrap.WidthMonotone` | cmds/screenrecord/TextRenderer.cpp:169-179 | the width of a prefix never exceeds the width of a longer prefix |
| `TextWrap.GlyphsAreDistinct` | cmds/screenrecord/TextRenderer.cpp:160-167 | each of the 95 printable characters has a glyph of its own and every other character that of the question mark |
| `TextWrap.ComputeScaledStringWidth` | cmds/screenrecord/TextRenderer.cpp:169-179 | the accumulated width is the scaled sum of the glyph advances |
| `TextWrap.BreakString` | cmds/screenrecord/TextRenderer.cpp:318-360 | no break if and only if the text is empty or fits; otherwise the break is at the last whitespace of the longest fitting prefix, or at its end if it has none |
| `TextWrap.BreakFits` | cmds/screenrecord/TextRenderer.cpp:318-360 | the text before a break fits when the widest glyph does |
| `TextWrap.DrawNextLine` | cmds/screenrecord/TextRenderer.cpp:288-311 | one turn draws one line, restores the patched character, and either finishes with all the text left, which fits, or ends its line at the greedy break of text that does not fit and moves strictly forward, or steps past the terminator with one last character too wide |
| `TextWrap.DrawBroken` | cmds/screenrecord/TextRenderer.cpp:283-313 | the loop ends; every line ends at the greedy break of what was left, skipping the one whitespace there, but for a last one that takes all of it; lines are laid out first-then-indented, fit their own width when the widest glyph fits, and join to the input exactly; for text of one character or not ending in whitespace it stays within the text if and only if the whole fits the first line or the last character fits a continuation line, and for text ending in a single whitespace character always |
| `TextWrap.OverrunHappens` | cmds/screenrecord/TextRenderer.cpp:283-313 | a concrete one-character text on which the loop steps past the terminator |
| `TextWrap.DrawWrappedString` | cmds/screenrecord/TextRenderer.cpp:253-316 | the same, with the same breaks and exact conditions, for the whole entry point, including clamped positions, the empty screen and the line narrower than one pixel |
| `Metadata.ResizeLeavesRoom` | camera/CameraMetadata.cpp:502-538 | resizing keeps the entries and leaves room for what was asked: a capacity that suffices stays and one that does not becomes twice what is wanted, so an existing buffer is reallocated only to more than double one capacity and shrink neither |
| `Metadata.WriteNeedsRoom` | camera/CameraMetadata.cpp:335-344 | written without resizing, an entry goes in if and only if the outcome has room, and otherwise nothing changes; so the room made before is what lets every update succeed |
| `Metadata.PutSetsOneTag` | camera/CameraMetadata.cpp:306-362 | updating a known tag always succeeds and changes that tag alone |
| `Metadata.EraseRemovesOneTag` | camera/CameraMetadata.cpp:396-423 | erasing removes that tag alone, an absent tag is no error, the null buffer is |
| `Metadata.RunRefinesMap` | camera/CameraMetadata.cpp:306-423 | after any run of updates and erasures from an empty object, lookups are those of a plain map |
| `CameraMetadata.CameraMetadata.ResizeIfNeeded` | camera/CameraMetadata.cpp:502-538 | no lookup changes and the buffer is the resized one |
| `CameraMetadata.CameraMetadata.UpdateImpl` | camera/CameraMetadata.cpp:306-362 | locked, unknown and aliasing updates fail and change nothing; otherwise exactly that tag is set |
| `CameraMetadata.CameraMetadata.Update` | camera/CameraMetadata.cpp:185-213 | a type other than the tag's is refused and changes nothing |
| `CameraMetadata.CameraMetadata.Erase` | camera/CameraMetadata.cpp:396-423 | status and effect of erase, including the lock and the null buffer |
| `CameraMetadata.CameraMetadata.EraseListed` | camera/CameraMetadata.cpp:465-475 | each listed tag that exists is erased and reported once; other tags are untouched |
| `CameraMetadata.CameraMetadata.RemovePermissionEntries` | camera/CameraMetadata.cpp:425-496 | no listed tag remains, other entries are untouched, the reported tags are those that existed, and the key list is rewritten to the sorted remaining keys |
| `CameraMetadata.KeysAreRewritten` | camera/CameraMetadata.cpp:477-493 | the rewritten key list is sorted and, unless the removed tags straddle 2^31, lacks exactly the removed tags |
| `KeyLists.SetDifference` | camera/CameraMetadata.cpp:485-489 | the set-difference loop computes the walk that the lemmas below reason about |
| `KeyLists.SetDiffOfSorted` | camera/CameraMetadata.cpp:485-489 | on sorted lists exactly one occurrence goes for each listed element |
| `KeyLists.TailIgnored` | camera/CameraMetadata.cpp:481-489 | elements listed after larger ones are never matched |
| `KeyLists.RemainingKeysExact` | camera/CameraMetadata.cpp:477-493 | the remaining keys are the available keys less the removed tags if and only if no removed tag from 2^31 up is accompanied by a removed available tag below it |
| `KeyLists.RemainingKeysSorted` | camera/CameraMetadata.cpp:482-489 | the remaining keys are sorted |
| `KeyLists.StraddlingKeepsRemovedKey` | camera/CameraMetadata.cpp:477-493 | a concrete input whose removed key stays listed, because the removed tags are sorted as signed integers |
| `MetadataParcel.AlignToRoundsUp` | camera/CameraMetadata.cpp:28-29 | the aligned address is the first multiple of the power of two not below the address |
| `MetadataParcel.MetadataRoundTrip` | camera/CameraMetadata.cpp:540-724 | for any address of the blob when written and any address when read, the packet is inside the blob at the first aligned address from the blob on, and the reader recovers it and consumes exactly what was written |
| `MetadataParcel.ReadExactly` | camera/CameraMetadata.cpp:540-621 | whatever the parcel holds, it is read as null if and only if its size is 0, and as a packet if and only if size, blob and offset fit each other and the packet between them is not empty and valid |
| `TagNames.BestPrefixIsLongest` | camera/CameraMetadata.cpp:801-827 | the section chosen is the longest that the name begins with, the earliest if several are equally long |
| `TagNames.FindSection` | camera/CameraMetadata.cpp:801-827 | the best-so-far loop over built-in and vendor sections finds that section |
| `TagNames.FindBuiltInTag` | camera/CameraMetadata.cpp:845-864 | the tag loop finds the first built-in tag of that name in the section's range |
| `TagNames.BuiltInNameResolves` | camera/CameraMetadata.cpp:786-878 | a name made of a built-in section that is its earliest longest known prefix, a separator and a tag name resolves to the first tag of that name within the bounds of the section, or to not found if there is none |
| `TagNames.VendorNameResolution` | camera/CameraMetadata.cpp:786-878 | for a vendor section it resolves to a tag with that section and name, or to not found if there is none |
| `TagNames.UnknownSectionExactly` | camera/CameraMetadata.cpp:818-827 | a name that begins with no known section is not found; every other name has one chosen section |
| `TagNames.BadNameExactly` | camera/CameraMetadata.cpp:829-837 | a name is refused as bad if and only if it ends with the chosen section or one character after it |
| `TagNames.GetTagFromName` | camera/CameraMetadata.cpp:786-878 | the loops compute the resolution that the theorems around this row are about, with its failures |
| `TagNames.VendorNameResolves` | camera/CameraMetadata.cpp:786-878 | a vendor tag's section, dot and name resolve to the tag when its section is the longest known prefix and not built in and the pair is unique |
| `VendorTags.IndexedFindsLast` | camera/VendorTagDescriptor.cpp:204-215 | a lookup finds the tag indexed last under that section and name, and only that |
| `VendorTags.IndexingIsConsistent` | camera/VendorTagDescriptor.cpp:204-215 | indexing every stored tag makes the reverse index a sound and complete inverse of the forward maps |
| `VendorTagParcel.RoundTrip` | camera/VendorTagDescriptor.cpp:111-293 | a written descriptor read into a fresh one has the same names, types and sections, is consistent and consumes exactly the written items; it answers every lookup the same if and only if, of the tags that share section and name, the one the sender indexed last is the largest |
| `VendorTagParcel.AnswersAgreeExactly` | camera/VendorTagDescriptor.cpp:204-215 | the rebuilt index answers as the sender's if and only if the sender's last are the largest |
| `VendorTagParcel.SharedPairReadsBackLargest` | camera/VendorTagDescriptor.cpp:204-215 | the read succeeds and the reader answers with the largest of the tags that share section and name |
| `VendorTagParcel.ReadIsConsistent` | camera/VendorTagDescriptor.cpp:111-218 | whatever the parcel holds, a descriptor read successfully into a fresh object is consistent |
| `VendorTagParcel.ReadIsAcceptable` | camera/VendorTagDescriptor.cpp:111-218 | whatever the parcel holds and whatever object it is read into, only vendor tags of known types with non-empty names, and non-empty sections, get in |
| `VendorTagParcel.CacheRoundTrip` | camera/VendorTagDescriptor.cpp:352-412 | a cache of faithful descriptors, written in any iteration order, is read back with the same vendors and equivalent descriptors, consuming exactly what was written |
| `VendorTagParcel.FaithfulArrives` | camera/VendorTagDescriptor.cpp:111-293 | a faithful descriptor is read back, whatever follows it, with the same names, types, sections and lookup answers |
| `VendorTagParcel.ReadsPastExactly` | camera/VendorTagDescriptor.cpp:178-215 | the unchecked access to the section list goes past its end if and only if every check before it passed and a section index is not below the number of distinct section names |
| `VendorTagParcel.RepeatedSectionReadsPast` | camera/VendorTagDescriptor.cpp:184-207 | a concrete parcel that passes the count check by repeating a section name and makes that access |
| `VendorTagParcel.OldTagsKeepSections` | camera/VendorTagDescriptor.cpp:131-200 | read into a descriptor in use, a tag the parcel does not mention keeps its section if and only if no section name that the parcel lists and the descriptor lacks sorts before it |
| `VendorTagParcel.ReadingMovesOldTag` | camera/VendorTagDescriptor.cpp:131-200 | a concrete descriptor and parcel by which a stored tag moves from one section to another |
| `VendorTagRelay.SentOnExactly` | camera/VendorTagDescriptor.cpp:111-293 | a descriptor read from any parcel and written again is read back the same but for its index, consuming exactly what was written, if and only if the first parcel lists no tag twice; otherwise reading fails, because the stored count is written and not the number of tags |
| `VendorTagRelay.RepeatedTagIsRead` | camera/VendorTagDescriptor.cpp:135-176 | a concrete parcel that lists a tag twice and is read |
| `VendorTagDescriptor.BuiltIsConsistent` | camera/VendorTagDescriptor.cpp:517-596 | a descriptor built from operations is consistent even if tags share names |
| `VendorTagDescriptor.BuiltRoundTrip` | camera/VendorTagDescriptor.cpp:517-596 | built from operations with distinct tags and non-empty names, then written and read, every name, type and section is kept; every lookup answer is kept if and only if, of tags that share section and name, the one listed last is the largest |
| `VendorTagDescriptor.SharedPairAnswersDiffer` | camera/VendorTagDescriptor.cpp:204-215 | for any two tags that share section and name, the larger listed first, the sender answers with the smaller and the receiver with the larger |
| `VendorTagDescriptor.BuiltDistinctRoundTrip` | camera/VendorTagDescriptor.cpp:517-596 | with distinct section/name pairs the descriptor read back is equivalent to the one built |
| `VendorTagDescriptor.BuiltCacheRoundTrip` | camera/VendorTagDescriptor.cpp:352-412 | a cache of such descriptors, in any iteration order, is read back with the same vendors and for each the same names, types, sections and lookup answers, with nothing left over |
| `VendorTagDescriptor.Descriptor.CreateDescriptorFromOps` | camera/VendorTagDescriptor.cpp:517-596 | succeeds exactly on acceptable operations; the maps, the sorted sections and the reverse index agree with them, and the descriptor is consistent |
| `VendorTagDescriptor.Descriptor.CopyFrom` | camera/VendorTagDescriptor.cpp:86-109 | the copy is equal (and consistent if its source was), the source is unchanged, and they share no name table; assigning to itself is harmless |
| `VendorTagDescriptor.Descriptor.Lookup` | camera/VendorTagDescriptor.cpp:299-316 | in a descriptor built, read or copied, a hit is a tag with the asked name and section, and a miss means that no stored tag has them |
| `VendorTagDescriptor.Descriptor.WriteToParcel` | camera/VendorTagDescriptor.cpp:259-293 | the loops write exactly the items the round trip starts from |
| `VendorTagDescriptor.Descriptor.ReadFromParcel` | camera/VendorTagDescriptor.cpp:111-218 | the loops read what the parser specification reads, with the same failures, into fresh or existing objects; what is read into a fresh one is consistent |
| `CaptureParcel.ExtrasReadBack` | camera/CaptureResult.cpp:29-87 | result extras are read back, except that an absent physical camera id leaves the reader's old one |
| `CaptureParcel.ResultRoundTrip` | camera/CaptureResult.cpp:138-245 | a result read back is the one written and consumes exactly its own items, if and only if it names an errored physical camera or the reading object did not |
| `CaptureParcel.StaleCameraIdSurvives` | camera/CaptureResult.cpp:29-57 | a concrete result and reading object by which an old camera id survives |
| `CaptureParcel.CaptureResult.ReadFromParcel` | camera/CaptureResult.cpp:138-196 | the reading loops are the parser specification, failures included |
| `CaptureParcel.CaptureResult.WriteToParcel` | camera/CaptureResult.cpp:198-245 | the writing loops are the printer specification |
| `CaptureParcel.WritableExactly` | camera/camera2/CaptureRequest.cpp:152-217 | a request can be written to the end if and only if its surfaces are converted or none is null, and each stream index has its surface index |
| `CaptureParcel.RequestRoundTrip` | camera/camera2/CaptureRequest.cpp:40-217 | a request that can be written and has at least one setting is read back whole but for surfaces already converted, of which none arrive, and surface indexes without a stream; one without settings is refused |
| `CaptureParcel.NullSlotsSkipped` | camera/camera2/CaptureRequest.cpp:94-121 | of any parcelled surface array exactly the places that are not null are read, in order, whatever follows |
| `CaptureParcel.ReadThenWritable` | camera/camera2/CaptureRequest.cpp:93-147 | a request read from any parcel can be sent on if and only if it is converted or got no null producer |
| `CaptureParcel.NullProducerCannotBeSent` | camera/camera2/CaptureRequest.cpp:114-119 | a concrete parcel that is read into a request whose sending dereferences a null surface |
| `CaptureParcel.CaptureRequest.ReadFromParcel` | camera/camera2/CaptureRequest.cpp:40-150 | the reading loops are the parser specification, failures included |
| `CaptureParcel.CaptureRequest.WriteToParcel` | camera/camera2/CaptureRequest.cpp:152-217 | the writing loops are the printer specification and get to their end exactly for such requests |
| `Parameters.ParseOfFlatten` | camera/CameraParameters.cpp:185-236 | parsing a flattened list gives back the list, as long as keys have no '=' and values no ';' |
| `Parameters.ParsedIsClean` | camera/CameraParameters.cpp:205-236 | whatever the text, the pairs parsed from it satisfy that condition |
| `Parameters.ParsedAccountsForText` | camera/CameraParameters.cpp:205-236 | every text is its parsed pairs as flatten prints them, but for a part at the end without an equals sign, so parsing loses and invents nothing |
| `Parameters.PutKeepsOthers` | camera/CameraParameters.cpp:238-255 | setting one key leaves what every other key answers |
| `Parameters.RunAnswersAsMap` | camera/CameraParameters.cpp:205-297 | after any set, remove and unflatten every lookup is that of a plain map; a later pair of a text wins and a removal takes its key alone |
| `Parameters.Run2AnswersAsMap` | camera/CameraParameters2.cpp:59-183 | the same for the order-keeping variant, if no text repeats a key |
| `Parameters.ReachableRoundTrip` | camera/CameraParameters.cpp:185-255 | every map reached by set, remove and unflatten of arbitrary text survives flatten and unflatten |
| `Parameters.ReachableRoundTrip2` | camera/CameraParameters2.cpp:37-108 | the same for the order-keeping variant, order and repeated keys included |
| `Parameters.Set2ThenGet2` | camera/CameraParameters2.cpp:92-132 | get answers with the value just set if and only if the key was listed at most once or its second occurrence had that value; other keys are unaffected |
| `Parameters.Set2CanBeHidden` | camera/CameraParameters2.cpp:59-132 | a concrete text after which set is hidden from get |
| `Parameters.LatestSetIsLast` | camera/CameraParameters2.cpp:149-177 | a key just set compares as set later than another if and only if it was listed at most once or its second occurrence was already behind the other; the others keep their order |
| `Parameters.SetOrderCanBeHidden` | camera/CameraParameters2.cpp:59-177 | texts after which the key set last compares as set first |
| `Parameters.SetIntThenGetInt` | camera/CameraParameters.cpp:257-285 | every 32-bit integer set under a key is the one got, though the base is detected when reading |
| `Parameters.SetPairThenGetPair` | camera/CameraParameters.cpp:300-364 | every pair of 32-bit integers set as a size is the pair got |
| `Parameters.AbsentReadsMinusOne` | camera/CameraParameters.cpp:271-285 | after any operations get answers with what the plain map holds, an empty value counting as absent; an absent integer reads as -1, and a size that is absent or has no delimiter as -1 and -1 |
| `Parameters.AbsentReadsMinusOne2` | camera/CameraParameters2.cpp:134-140 | the same for the order-keeping variant, if no text repeats a key, except that an empty value is not absent |
| `Parameters.SetInt2ThenGetInt2` | camera/CameraParameters2.cpp:110-140 | in the order-keeping variant the integer got is the one set if and only if the key was listed at most once or its second occurrence reads the same |
| `Parameters.SetPair2ThenGetPair2` | camera/CameraParameters2.cpp:185-308 | the same for sizes and for frame rate ranges |
| `Parameters.RepeatsOnlyFromText` | camera/CameraParameters2.cpp:37-108 | only a text that itself repeats a key makes a list that does |
| `Parameters.ReachableSet2ThenGet2` | camera/CameraParameters2.cpp:185-308 | after any operations whose texts repeat no key, every integer, size and range set is the one got |
| `Parameters.Range2CanBeHidden` | camera/CameraParameters2.cpp:296-308 | a concrete text after which the range set is not the range got |
| `Parameters.CameraParameters.DoUnflatten` | camera/CameraParameters.cpp:205-236 | the loop adds exactly the parsed pairs to an emptied map |
| `Parameters.CameraParameters.DoSet` | camera/CameraParameters.cpp:238-255 | null and delimiter-bearing arguments change nothing; otherwise that key is set |
| `Parameters.CameraParameters.DoFlatten` | camera/CameraParameters.cpp:185-203 | the loop prints exactly the textual form |
| `Parameters.CameraParameters2.DoUnflatten` | camera/CameraParameters2.cpp:59-90 | the loop lists exactly the parsed pairs in order |
| `Parameters.CameraParameters2.DoSet` | camera/CameraParameters2.cpp:92-108 | replaces the first occurrence and moves the key to the end |
| `Decimal.PrintedIntRead` | camera/CameraParameters.cpp:257-285 | a printed 32-bit integer is read back in base 10 or with base detection, up to the character that follows |
| `Decimal.PairReadBack` | camera/CameraParameters.cpp:300-323 | a printed pair is parsed back, leaving what follows |
| `Decimal.ParseSizesList` | camera/CameraParameters.cpp:325-348 | the loop terminates on every text and returns the sizes before the first malformed one |
| `Decimal.SizesReadThenRest` | camera/CameraParameters.cpp:325-348 | printed sizes with any text behind them are read back; behind a comma reading goes on, behind any other character it stops without the size before it |
| `Decimal.SizesBeforeMalformed` | camera/CameraParameters.cpp:325-348 | reading stops at the first item that is no size and keeps those before it |
| `Decimal.SizesReadBack` | camera/CameraParameters.cpp:325-348 | the printed form of any list of sizes is parsed back to the list |
| `Muxer.Muxing` | cmds/stagefright/muxer.cpp:164-215 | the sample loop writes exactly what the declarative trim says: each selected sample that has an opening sync sample with nothing past the end since, relative to the earliest such; without trimming, every selected sample unchanged |
| `Muxer.TrimmedIsSlice` | cmds/stagefright/muxer.cpp:187-211 | with non-decreasing times the output is the slice from the first sync sample inside the range through the last sample within it, shifted to begin at 0 |
| `Muxer.BoundsExist` | cmds/stagefright/muxer.cpp:187-211 | that slice exists whenever some sample can open it |
| `Muxer.AnyOrder` | cmds/stagefright/muxer.cpp:187-211 | in any order every written sample is within the end, the first is a sync sample at time 0, and nothing is written if and only if no sample can open the output |
| `Muxer.OnePieceExactly` | cmds/stagefright/muxer.cpp:187-211 | in any order all written samples are relative to one opening sample if and only if no opening sample follows a sample past the end that follows an opening sample |
| `Muxer.OneShift` | cmds/stagefright/muxer.cpp:187-211 | in one piece the output is the kept samples under a single shift |
| `Muxer.OutOfOrderRestarts` | cmds/stagefright/muxer.cpp:187-211 | a concrete input with two pieces, each beginning at 0 |
| `FrameOutput.ReduceRgbaToRgb` | cmds/screenrecord/FrameOutput.cpp:193-206 | the in-place pass equals an out-of-place conversion for every pixel count, and leaves the bytes behind it alone |
| `FrameOutput.RgbOfPixel` | cmds/screenrecord/FrameOutput.cpp:193-206 | pixel by pixel red, green and blue are kept and alpha dropped |
| `FrameOutput.ValueReadBack` | cmds/screenrecord/FrameOutput.cpp:32-41 | a little-endian word is read back modulo 2^32 |
| `FrameOutput.PacketReadBack` | cmds/screenrecord/FrameOutput.cpp:155-176 | a packet whose words fit 32 bits, followed by anything, is read back with its size, stride, format and pixels |
| `FrameOutput.IntSizedIsEncodable` | cmds/screenrecord/FrameOutput.cpp:82-82 | that is so for every frame whose buffer size the program can compute in a signed 32-bit integer |
| `FrameOutput.StreamReadBack` | cmds/screenrecord/FrameOutput.cpp:155-176 | any sequence of such packets decodes to the same frames with nothing left over |
| `FrameOutput.Output.CopyFrame` | cmds/screenrecord/FrameOutput.cpp:145-176 | a frame is appended to the file as one packet that fits its words (or raw), so a file of frames stays a file of frames |
| `PlayerMessages.OneWorkLoop` | cmds/stagefright/SimplePlayer.cpp:107-265 | in every order of requests and timers exactly one work message of the current generation is pending while started and none otherwise; work runs only when started, with a source to read from |
| `PlayerMessages.StepKeepsInv` | cmds/stagefright/SimplePlayer.cpp:107-265 | each message keeps that invariant |
| `PlayerMessages.LoopsOnlyFromStarts` | cmds/stagefright/SimplePlayer.cpp:378-416 | pending work messages and stale deliveries together are exactly the starts |
| `PlayerMessages.StaleMessagesGo` | cmds/stagefright/SimplePlayer.cpp:250-265 | every stop leaves exactly one stale message, which is gone after one delivery: those pending are the stops less the stale deliveries |
| `PlayerMessages.RunFollowsRequests` | cmds/stagefright/SimplePlayer.cpp:107-265 | in any run the state is the one its requests alone lead to by the table of moves, each start and stop opens a generation, and work has run once per work message delivered in its own generation |
| `PlayerMessages.RefusedLeavesAlone` | cmds/stagefright/SimplePlayer.cpp:107-248 | a request outside the table of moves changes nothing and is answered with an invalid operation or with the status of the failed opening |
| `PlayerMessages.ReplyTellsSuccess` | cmds/stagefright/SimplePlayer.cpp:107-248 | in every state a reply of OK coincides with success, whatever an uninitialised variable holds, if and only if the request is neither setDataSource to an uninitialized player nor reset of an unprepared one |
| `PlayerMessages.UnpreparedIsStuck` | cmds/stagefright/SimplePlayer.cpp:107-248 | an unprepared player stays so through any requests, reset included, if and only if its source is never opened |
| `PlayerMessages.ResetKeepsSource` | cmds/stagefright/SimplePlayer.cpp:227-248 | a concrete reset answered with OK after which the player keeps its source and refuses another |
| `PlayerMessages.SetDataSourceReplyUnset` | cmds/stagefright/SimplePlayer.cpp:109-126 | a concrete successful setDataSource that replies with a failure |
| `PlayerTracks.EveryBufferOnce` | cmds/stagefright/SimplePlayer.cpp:418-569 | after any history each input index has one owner; every dequeued output buffer was given back once, in dequeue order, or is held; what was rendered in time to a sink reached it whole and in order; written minus played never exceeds the sink's size |
| `PlayerTracks.StepKeepsInv` | cmds/stagefright/SimplePlayer.cpp:418-569 | every codec, sink and player step keeps that invariant |
| `PlayerTracks.HistoryIsRecorded` | cmds/stagefright/SimplePlayer.cpp:418-569 | after any history, in terms of its events alone: the codec was fed the samples of the feed events in buffers used in the order it handed them out, the outputs were those it handed out and were given back as late as the events say, and the sink has played what it played |
| `PlayerTracks.RoomIsTrue` | cmds/stagefright/SimplePlayer.cpp:602-621 | the room computed from two wrapping 32-bit counters is the true room, however often they wrapped |
| `PlayerTracks.WriteAudioSink` | cmds/stagefright/SimplePlayer.cpp:602-650 | a partial write keeps whole frames, the counters and the order of bytes |
| `SimplePlayer.CodecState.RenderAudio` | cmds/stagefright/SimplePlayer.cpp:602-650 | the copy computed from the counters is performed, and nothing when there is no room |
| `SimplePlayer.CodecState.DequeueInputs` | cmds/stagefright/SimplePlayer.cpp:424-437 | the input loop takes exactly the buffers the codec offers, in order, up to the first refusal |
| `SimplePlayer.CodecState.DequeueOutputs` | cmds/stagefright/SimplePlayer.cpp:439-465 | the output loop takes exactly the buffers, audio formats and new buffer vectors the codec reports, in order, up to the answer that ends it |
| `SimplePlayer.OffersTaken` | cmds/stagefright/SimplePlayer.cpp:424-437 | every input buffer offered becomes available, in order, up to one that the codec no longer has |
| `SimplePlayer.RepliesTaken` | cmds/stagefright/SimplePlayer.cpp:439-465 | every answer of the codec is followed, in order, as an event of the history, up to one that says there is nothing or that cannot be followed |
| `SimplePlayer.CodecState.RenderDue` | cmds/stagefright/SimplePlayer.cpp:518-566 | buffers are given back front first, dropped if and only if over 30 ms late by the given clock, and the loop stops only at a buffer that is early or faces a full sink |
| `SimplePlayer.Player.FeedAll` | cmds/stagefright/SimplePlayer.cpp:468-510 | samples are fed in source order, each to its own track, until the next one's track has no input buffer or no sample is left |
| `SimplePlayer.EachTrackItsSamples` | cmds/stagefright/SimplePlayer.cpp:468-510 | each track is fed all of its own samples in order, one input buffer each, and nothing else of it changes |
| `SimplePlayer.Player.OnDoMoreStuff` | cmds/stagefright/SimplePlayer.cpp:418-569 | one round of work dequeues exactly what each codec hands out, feeds samples until the next one's track has no input buffer, sets the start time once, gives back the due buffers of every track by that clock until none could be given back now, and continues every track's history |
| `SimplePlayer.Player.OnPrepare` | cmds/stagefright/SimplePlayer.cpp:272-376 | a failed open leaves no tracks; a successful one gives separate tracks whose codecs have been fed exactly their configuration data and hold all their input buffers |
| `SimplePlayer.Player.OnMessageReceived` | cmds/stagefright/SimplePlayer.cpp:107-265 | the handler is exactly the message step; a current work message does one such whole round of work, a stale one, a stop and a start of a prepared player leave the tracks exactly as they are, and a request that opens the source makes its tracks |
| `RecordingHandles.EachFrameInOnePlace` | camera/Camera.cpp:414-508 | in every run, single or batched and with listeners set and cleared at any time: each frame handed out is under way, with one holder or back, exactly once; no copy is closed twice |
| `RecordingHandles.DrainedExactlyOnce` | camera/ICamera.cpp:165-194 | once a run is drained, every frame handed out came back exactly once and every copy was closed exactly once |
| `RecordingHandles.EveryScheduleSettles` | camera/Camera.cpp:414-508 | once nothing more is handed out, every schedule has at most as many handling events as there is work, whatever their order, the listeners and the connection |
| `RecordingHandles.StuckIsSettled` | camera/Camera.cpp:414-508 | nothing is left to handle if and only if nothing is under way and every copy is closed or leaked |
| `RecordingHandles.SettledExactlyOnce` | camera/Camera.cpp:235-249 | once a run has settled, every copy was closed exactly once if and only if no frame was released in the app after the camera was disconnected, and then every frame came back exactly once |
| `RecordingHandles.LateReleaseLeaks` | camera/Camera.cpp:235-249 | a concrete run that settles with an open copy and a frame that never comes back |
| `RecordingHandles.StepKeepsInv` | camera/ICameraRecordingProxyListener.cpp:53-95 | each hop, look-up, close and listener change keeps frame conservation and close-at-most-once |
| `RecordingHandles.Recording.RecordingFrameHandleCallback` | camera/Camera.cpp:414-472 | the frames go to the proxy listener and are closed, else to the listener, else straight back as a release |
| `RecordingHandles.Recording.ForwardToRecorder` | camera/ICameraRecordingProxyListener.cpp:53-95 | the recorder is sent the same frames in order and the app's copies are closed; mismatched timestamps send and close nothing |
| `RecordingHandles.Recording.ReleaseByRecorder` | camera/ICameraRecordingProxy.cpp:74-103 | the app is sent the same frames in order and the recorder's copies are closed |
| `RecordingHandles.Recording.ReleaseToCamera` | camera/Camera.cpp:235-249 | with a camera the service is sent the same frames in order and the app's copies are closed; without one nothing is sent or closed |
| `RecordingHandles.Recording.CloseHandles` | camera/ICamera.cpp:189-193 | the close loop closes each listed copy once |
| `RecordingHandles.Recording.WriteNativeHandles` | camera/ICamera.cpp:178-186 | the write loop puts the handles' frames in the parcel in order |
| `RecordingHandles.Recording.ReadNativeHandles` | camera/ICameraClient.cpp:217-225 | the read loop makes one new copy per handle in order |
| `RecordingHandles.Recording.OnClientTransact` | camera/ICameraClient.cpp:175-230 | a received batch ends with the listener, or is passed on whole, by a legal run of the protocol |
| `RecordingHandles.Recording.OnListenerTransact` | camera/ICameraRecordingProxyListener.cpp:115-171 | the recorder's listener holds one copy per frame received |
| `RecordingHandles.Recording.OnProxyTransact` | camera/ICameraRecordingProxy.cpp:135-167 | a release from the recorder is relayed to the service whole, as a release |
| `RecordingHandles.Recording.OnCameraTransact` | camera/ICamera.cpp:410-429 | the service gets back exactly the frames of the call |

## Left out

- Allocation failure, and sizes beyond the address space, in the metadata buffer and in parcels.
- CameraMetadata's lock/unlock, acquire, release, swap and append: pointer hand-overs between buffers; the lock flag itself is modelled.
- The `camera_metadata` C library, Parcel, KeyedVector and SortedVector: given by their contracts (sorted unique keys, `add` replaces, reads fail at the end).
- VendorTagParcel.CacheRoundTrip: the cache is a value; its descriptors are read into fresh objects, and sharing of descriptor objects is not captured.
- Global vendor tag descriptor and cache singletons, `getVendorTagDescriptor`, and dumping.
- TagNames.GetTagFromName: the vendor descriptor is a parameter; choosing between the global descriptor and the global cache is not modelled.
- String16 and UTF-8 conversions: treated as the identity.
- TextWrap.ComputeScaledStringWidth: arithmetic is over reals, so float rounding is not captured; a negative available width counts as 0 when converted to an unsigned width.
- TextWrap.DrawBroken: for text that ends in two or more whitespace characters only one direction is stated of when the loop stays within the text; which of them a line swallows depends on every earlier break.
- AudioPlayer: playback position, latency, offload and sink set-up, pause and failed starts.
- AudioPlayer.PlaybackIsGapFree: covers runs between a successful start and reset; reset is covered by `AudioPlayer.ResetReleasesEverything`.
- PlayerMessages.OneWorkLoop: the generation counter is unbounded; the original overflows a 32-bit signed counter after 2^31 starts and stops, which C++ leaves undefined.
- PlayerTracks.EveryBufferOnce: output sizes are whole frames of the sink in use, as the codec promises for PCM.
- SimplePlayer.Player.OnPrepare: track selection by MIME type and codec failures (which abort) are left out; tracks are numbered by their position among the selected ones.
- SimplePlayer.CodecState.DequeueOutputs: buffers held across a change of the codec's buffer vector are taken to keep their contents.
- VendorTagDescriptor.Descriptor.ReadFromParcel: where the original accesses its section list without a check, the model reports an out-of-bounds status, and where the original aborts on an empty section list, an aborted one; `VendorTagParcel.ReadsPastExactly` says exactly when.
- RecordingHandles.EachFrameInOnePlace: handles are non-null and transactions succeed; each time the service hands out a buffer counts as a new frame.
- RecordingHandles.Recording.PassOn: a call and the close after it are one method, although the protocol lets other steps come in between.
- Muxer.Muxing: track selection, the correction of the start time to the duration, and the extractor's errors (which abort); samples arrive as a list.
- FrameOutput.Output.CopyFrame: waiting for a frame, GL calls and file errors; the file is a byte sequence, and sizes are those whose products do not overflow the original's signed integers.
- Decimal.PrintedIntRead: `strtol` is given by its C definition (leading space, signs, base prefixes, saturation); what is proved concerns the decimal text the repository prints and text without a delimiter.
- Parameters: `setFloat` and `getFloat`, format enumerations and dumping.
- CaptureParcel: binder objects inside surfaces; a surface is the name of its producer.
- Binder service look-up and death notification, the other camera transactions, the NDK wrappers, DRM containers, EGL and shader code, font pixels, command-line parsing and the remaining command-line tools.
