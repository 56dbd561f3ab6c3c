# Vita Content Manager: a verified model

The content manager moves photos, music, video and subtitles between a desktop program and a PS Vita,
over Wi-Fi and over USB. This project models the parts that decide whether a transfer is correct and
proves what they keep in every run.

| subsystem | modules |
|---|---|
| transfer queue, stepped by the Wi-Fi thread, the import worker and the UI | `TransferQueue`, `TransferRuns`, `TransferSafety`, `TransferStatus`, `TransferDelivery`, `ImportWorker` |
| import journal around a vendor export that must not run twice | `ImportProtocol`, `ImportSafety`, `ImportResults` |
| queue text format: Python printer, C parser that cuts its input in place | `Strings`, `QueueFormat`, `QueueParser`, `QueueRequest` |
| byte conservation of uploads, over Wi-Fi and through the USB relay | `Upload` |
| MTP responder: catalogue, wire format, sessions, engine on its adapter, whole runs | `MtpCatalog`, `MtpString`, `MtpWire`, `MtpServer`, `MtpEngine`, `MtpRuns` |
| a host that reads its data sets by the offsets of the standard | `MtpInfo`, `MtpHost`, `MtpMedia` |
| building the catalogue and the bridge's check of it | `MtpSnapshot`, `MtpValidate` |
| M4T subtitle files: boxes, fragments, two-level index, chunking, wrapping | `Boxes`, `SegmentIndex`, `M4tFile`, `M4tBuild`, `M4tPatch`, `SubtitleChunks`, `TtmlClock`, `CaptionWrap`, `CaptionFill` |
| decoders: DXT1 thumbnails, ID3v2.3 tags | `Dxt1`, `Id3Text`, `Id3Tag`, `Id3Frames`, `Id3Written` |
| shared | `Bytes`, `Utf8` |

How it is built:

- Code that updates state is a class or a method with loops (`SharedQueue`, the in-place parser, `Writer`,
  `Server`, `Adapter`, `Catalogue`, `Inbox`, `Relay`, the DXT1 converter). Each method is tied to a function on
  values, and the theorems are about these functions.
- The queue's locked regions are atomic steps of `TransferRuns.Next`, and the actors interleave freely except
  that the Wi-Fi thread is sequential and the UI starts a worker only when syncing and none exists. A theorem over
  "every run" quantifies over all event sequences from the initial state.
- Sockets, files, the USB device and the vendor exporter return arbitrary values in their documented ranges.
- Integer widths matter for the queue's 64-bit counters, the decimal parser, MTP lengths and handles, and the
  32-bit thumbnail size; they are written out. Bit operations on unsigned numbers are division and remainder.

What the proofs turned up, stated as lemmas beside the positive results:

- `failed` counts an item again each time it fails after a retry, so the publish guard can let a queue be replaced
  while a file is still waiting (`TransferSafety.RetriesDefeatTheGuard`; the exact condition is
  `TransferSafety.PublicationGuard`).
- An import call that only finds the done receipt reports success although that receipt may not be durable yet
  (`ImportSafety.SuccessWithoutDurability`; exact condition in `ImportSafety.SuccessMeansDone`).
- An import call takes a failed existence check for absence. If the first export was undone, by a rolled-back insert or
  a power loss, one failed check of the durable journal starts it again (`ImportSafety.MissedJournalRepeatsInsert`,
  `ImportSafety.MissedJournalRepeatsExport`; exact condition in `ImportSafety.StartsExactlyWhenOverlooked`).
- A subtitle uploaded before its media leaves the item's byte count below what was declared, although the item is
  complete (`TransferStatus.UploadEndsTruthfully` has the exact condition).
- A USB upload whose data phase fails is aborted and yet answered OK, because the status of its begin stands
  (`Upload.AbortedUploadIsAnsweredOk`; exact condition in `Upload.OkExactlyWhen`).
- Copying a text that ends in a sequence cut short by two bytes or more reads up to two bytes behind its terminator;
  the result does not depend on them (`MtpSnapshot.CopyText` has the exact condition).
- A publication the two sides agree on may still be refused for its size: 128 items can print to more than the
  handler's 512 KiB (`QueueRequest.LargePublicationIsRefused`; up to 103 items always fit).
- Thumbnails above 65536 bytes are announced but can never be sent, since the adapter refuses the single chunk the
  engine offers (`MtpRuns.ThumbnailsFitOneChunk`, `MtpRuns.SendableThumbnails`).
- An index reference misreads a fragment of 2 GiB or more as an index, because the type bit shares the size's word
  (`M4tFile.IndexLeadsToDocument` has the exact condition).
- A title of only dots and spaces overwrites the start of the display name without terminating it; the name stays
  valid only because the entry was cleared before (`MtpSnapshot.DisplayIsTidy`).

## Model

| member | source | states |
|---|---|---|
| TransferQueue.SharedQueue.Find | src/vita/sync_queue.c:119-132 | the shared state becomes the find step's; the loop finds the first item whose name matches, and accepts only the declared size in a state that still expects it |
| TransferQueue.SharedQueue.Progress | src/vita/sync_queue.c:149-154 | item bytes and the transferred total move together, with 64-bit arithmetic |
| TransferQueue.SharedQueue.Receive | src/vita/sync_queue.c:155-163 | an error fails the item and counts it once; success completes media or subtitle and advances the state |
| TransferQueue.SharedQueue.Sync | src/vita/sync_queue.c:164-169 | syncing starts exactly when the guard holds |
| TransferQueue.SharedQueue.Cancel | src/vita/sync_queue.c:170 | afterwards the queue is cancelled and no find is accepted; nothing but the cancel flag and the revision changed |
| TransferQueue.SharedQueue.Publish | src/vita/sync_queue.c:103-110 | items are replaced with fresh ones and the counters reset, or nothing changes |
| TransferQueue.SharedQueue.LockItem | src/vita/sync_queue.c:173-178 | the import loop's first locked region stops, passes over or takes an item exactly as the value-level step |
| TransferQueue.SharedQueue.Conclude | src/vita/sync_queue.c:180-182 | its second locked region records the result and counts it |
| TransferQueue.SharedQueue.RunImports | src/vita/sync_queue.c:172-185 | undisturbed, the import loop yields the state that the recursive specification gives for the exporter's results |
| ImportWorker.Device.RunImports | src/vita/sync_queue.c:172-185 | while interface and Wi-Fi thread act on the same queue between its locked regions and during each import, the loop's regions are the worker's steps of one run, the invariant holds throughout, and it ends with the worker done and syncing cleared |
| ImportWorker.OthersKeepWorker | src/vita/sync_queue.c:103-185 | no step of the other actors moves a running worker or replaces the list of files |
| TransferQueue.ImportFromOutcome | src/vita/sync_queue.c:172-185 | an uncancelled import loop turns every Received item into Imported or Failed by its own status, and touches no other item |
| TransferRuns.StepPreservesInvariant | src/vita/sync_queue.c:103-185 | every step of every actor keeps the global invariant |
| TransferRuns.RunPreservesInvariant | src/vita/sync_queue.c:103-185 | every run keeps it |
| TransferSafety.CountersAreExact | src/vita/sync_queue.c:103-185 | in every reachable state transferred = sum of received ≤ total = sum of declared sizes < 2^64, imported = number of imported items, failed = number of failed items + retries |
| TransferSafety.LateStatesAreComplete | src/vita/sync_queue.c:119-163 | Received, Importing or Imported implies all declared parts are there, Waiting or Receiving implies they are not |
| TransferSafety.ImportExclusion | src/vita/sync_queue.c:164-185 | an importing item implies syncing, no other importing item, no upload in progress, and a refused publish |
| TransferSafety.QueueInUseIsNotReplaced | src/vita/wifi_service.c:294-378 | between a find and its received, and during an import, no step of any actor replaces the items |
| TransferSafety.ImportsHappenOnce | src/vita/sync_queue.c:172-185 | Imported is absorbing until the next publication, and each item is exported at most once per publication |
| TransferSafety.CancelledExactly | src/vita/sync_queue.c:103-170 | in every run the queue is cancelled if and only if a cancel, or a worker that could not be started, stands behind the last accepted publication |
| TransferSafety.CancelStopsNewWork | src/vita/sync_queue.c:119-178 | from a Cancel event of any run on, no item enters Receiving or Importing until a new publication |
| TransferSafety.CancelOnlyMarks | src/vita/sync_queue.c:170 | a cancel leaves files, counters and the work in progress as they are |
| TransferStatus.StatusIsTruthful | src/vita/sync_queue.c:149-185 | in every reachable state every failed item has an error code and otherwise only one that is being uploaded again can, the bytes of a running upload are those received with its finished media, and the importing index is that of the item in the exporter |
| TransferStatus.UploadEndsTruthfully | src/vita/sync_queue.c:149-163 | an upload that fails fails its item with its code; one that succeeds marks its part, and the item is received exactly when all parts are there; its bytes then equal the declared ones if and only if the sidecar came last or there is none |
| TransferStatus.PublicationIsStored | src/vita/sync_queue.c:103-110 | an accepted publication stores exactly its files, waiting and without bytes or errors, under its id |
| TransferStatus.SyncIsGrantedExactly | src/vita/sync_queue.c:164-169 | a sync is granted if and only if no upload runs and every file of a live, non-empty queue was received or failed |
| TransferStatus.ChangesShowInTheRevision | src/vita/sync_queue.c:103-185 | every step that changes the queue changes its revision |
| TransferDelivery.CompleteTransferSucceeds | src/vita/sync_queue.c:103-185 | from every reachable state that accepts a publication, publishing, uploading each file and sidecar, one sync and successful imports leave every item imported without an error, none failed, all declared bytes counted, and the queue free again |
| TransferDelivery.AcceptedBodyCanBeDelivered | src/vita/sync_queue.c:61-111 | so every body the parser accepts can be delivered in full |
| TransferDelivery.OnlyDeliverableArrives | src/vita/sync_queue.c:119-132 | in every run only files with a 32-byte id and an extension other than m4t are ever received or imported |
| TransferSafety.UncancelledImportSettlesEverything | src/desktop/app.py:339 | when the worker ends uncancelled every item is imported or failed, and imported + failed = count + retries: the desktop's completion condition holds exactly without retries |
| TransferSafety.WorkerMakesProgress | src/vita/sync_queue.c:172-185 | a measure of the worker's remaining steps falls with each of its steps and no other actor raises it |
| TransferSafety.PublicationGuard | src/vita/sync_queue.c:103-110 | publish is accepted if and only if not syncing and (cancelled or pending items ≤ retries) |
| TransferSafety.UnretriedQueueIsReplacedOnlyWhenSettled | src/vita/sync_queue.c:103-110 | without retries an uncancelled queue is replaced only when every item is settled |
| TransferSafety.RetriesDefeatTheGuard | src/vita/sync_queue.c:119-132 | a run in which two failures of one file let a queue be replaced while the other file waits |
| ImportProtocol.StepPreservesInvariant | src/vita/sync_import.c:70-158 | every effect, failure, kill and power loss keeps the invariant of receipts, files and counters |
| ImportSafety.AtMostOneExport | src/vita/sync_import.c:70-158 | over any calls, failures, kills and power losses every export or insert start after the first costs a failed check of a receipt that exists, so without such a failure there is at most one; once started, every disk a crash may leave holds a receipt |
| ImportSafety.VendorExportsRepeatOnlyAfterPowerLoss | src/vita/sync_import.c:51-69 | whatever checks fail and however often the process is killed, a vendor export starts twice only after a power loss undid something, because the staging directory stops the next call |
| ImportSafety.InsertsRepeatOnlyAfterRestore | src/vita/media_database.c:456-475 | an mp3 insert starts twice only after such a power loss, a song moved back after a failed insert, or a failed check of the song |
| ImportSafety.StartsExactlyWhenOverlooked | src/vita/sync_import.c:75-107 | the next call begins an export if and only if its check fails for every receipt that exists and the files allow a start: for staged items no directory and the upload in the inbox, for an mp3 the upload in the inbox and no song, or a whole one whose check fails |
| ImportSafety.RepeatedOnlyWhenMissed | src/vita/sync_import.c:75-83 | in every run, a call that begins an export although one had begun missed a receipt |
| ImportSafety.MissedJournalRepeatsInsert | src/vita/media_database.c:466-475 | a failed insert is rolled back and its song moved back; then one failed check of the journal starts another insert |
| ImportSafety.MissedJournalRepeatsExport | src/vita/sync_import.c:78-81 | a power loss undoes directory and move; then one failed check of the journal starts the vendor export again |
| ImportSafety.StagingStopsTheNextCall | src/vita/sync_import.c:61-62 | without the power loss no failed checks make the next call start the export again |
| ImportSafety.ExportStartsAfterDurableJournal | src/vita/sync_import.c:76-114 | the export starts only when the journal survives every power loss |
| ImportSafety.SourceRemovedOnlyWhenDone | src/vita/sync_import.c:147-157 | the staged source is removed only once the done receipt is durable |
| ImportSafety.CommitIsPermanent | src/vita/sync_import.c:149-157 | whatever fails later, a durable done receipt never disappears |
| ImportSafety.CommitEndsTheProtocol | src/vita/sync_import.c:75-77 | after the commit no later call starts an export as long as no check misses the receipt |
| ImportResults.CompleteImportSucceeds | src/vita/sync_import.c:70-158 | for both kinds, from every reachable idle state without a receipt whose files allow a start, a call whose effects all succeed makes exactly one start and returns 0, with the done receipt durable and upload, staged file and staging directory gone |
| ImportResults.ResultIsHonest | src/vita/sync_import.c:84-157 | in every run, a call that made a start returns 0 if and only if no effect from the start up to the second sync failed |
| ImportResults.ReceiptsDecide | src/vita/sync_import.c:75-78 | a call that finds the done receipt returns 0 at once, one that finds only the journal returns -1002, and neither changes a file |
| ImportResults.FailureIsReported | src/vita/sync_import.c:79-150 | every failure that ends a call is returned with its own code: -1001, -1003, -1008 or the code of the effect, whether or not the failure receipt could be written |
| ImportSafety.SuccessMeansDone | src/vita/sync_import.c:75-157 | a success return means the done receipt exists; it is durable if and only if a sync succeeded since the rename |
| ImportSafety.SuccessWithoutDurability | src/vita/sync_import.c:75-77 | a run in which a call reports success and a power loss then brings the journal back |
| QueueFormat.PayloadRoundTrip | src/desktop/wifi.py:175-181 | parsing the printed payload of any 1 to 128 valid items with distinct ids yields exactly those items |
| QueueFormat.AcceptedIsValid | src/vita/sync_queue.c:61-102 | whatever body is accepted is a valid publication whose total fits 64 bits and which prints back to itself |
| QueueRequest.PublishBody | src/vita/sync_queue.c:61-111 | parsing the body in place and publishing on the shared queue gives exactly the requested queue; -1 exactly for a body that does not parse, -2 exactly while the queue is in use, and both leave the queue unchanged |
| QueueRequest.HandlePublish | src/vita/wifi_service.c:644-660 | 413 exactly for an empty or too long body, 400 exactly for one with a zero byte or that does not parse, 409 exactly while the queue is in use, else 201; only 201 changes the queue |
| QueueRequest.PayloadIsAcceptedExactlyWhenItFits | src/vita/wifi_service.c:645-647 | a valid publication is accepted by a free queue if and only if its payload is shorter than 512 KiB |
| QueueRequest.SmallPublicationsFit | src/desktop/wifi.py:175-181 | every valid publication of up to 103 items is |
| QueueRequest.LargePublicationIsRefused | src/vita/wifi_service.c:645-647 | a valid publication of 128 items that is refused for its size |
| QueueFormat.QuoteRoundTrip | src/vita/sync_queue.c:31-44 | percent-decoding inverts percent-encoding for every printable byte string that fits the buffer |
| QueueFormat.DecodedFits | src/vita/sync_queue.c:31-44 | every decoded text fits its buffer and holds no control character |
| QueueFormat.DecimalRoundTrip | src/vita/sync_queue.c:45-53 | the decimal parser inverts printing for every number up to the parser's limit |
| QueueFormat.ParsedDecimalFits | src/vita/sync_queue.c:45-53 | no accepted number wraps 64 bits |
| QueueFormat.TextFieldFits | src/desktop/wifi.py:161-163 | whatever tags a file has, the desktop's text field passes the Vita's limit and decodes to itself |
| QueueFormat.CutFits | src/desktop/wifi.py:161-163 | cutting at the byte limit keeps the longest prefix of whole characters |
| QueueParser.Field | src/vita/sync_queue.c:54-60 | exactly the first delimiter is replaced by a terminator, and the position behind it is returned |
| QueueParser.DecodeInto | src/vita/sync_queue.c:31-44 | on the C string in memory the decoder computes the decoding or fails exactly when there is none, reads nothing behind the terminator and stays inside its buffer |
| QueueParser.ReadDecimal | src/vita/sync_queue.c:45-53 | the 64-bit loop over the C string computes the exact decimal value without wrapping |
| QueueParser.LineFieldsInPlace | src/vita/sync_queue.c:69-72 | the cut C strings are the tab-separated fields of the line, if there are 15 or 16 |
| QueueParser.ReadNumbers | src/vita/sync_queue.c:79-81 | the seven numbers at their positions, or one of them is malformed |
| QueueParser.CheckHead | src/vita/sync_queue.c:82-91 | the range and extension tests in the order of the source decide exactly the specified ranges |
| QueueParser.ParseItem | src/vita/sync_queue.c:73-98 | decoding the cut strings into the item's buffers and testing them step by step yields exactly the specified item, or fails exactly when there is none or its id is taken |
| QueueParser.ParseLine | src/vita/sync_queue.c:67-101 | one round of the item loop is one step of the value-level parser |
| QueueParser.ParseInPlace | src/vita/sync_queue.c:61-102 | destructive parsing computes the value-level parse of the body as received |
| Upload.Inbox.WriteAll | src/vita/wifi_service.c:351-356 | partial writes add up to exactly the data, or the write fails |
| Upload.Inbox.ReceiveBody | src/vita/wifi_service.c:336-360 | without failure the file equals the stream read; reported progress strictly increases within 1..expected, and with the interface and the worker acting in between every report is an enabled step of the queue's runs |
| Upload.Inbox.ReceiveFile | src/vita/wifi_service.c:294-378 | the final name appears only with exactly as many bytes in stream order as the queue declares for the file, and never over an existing one even if an existence check fails; otherwise final and partial files are as before; a file that the queue expects, with room and no leftover, gets its name if and only if creating, receiving, writing, flushing, closing and renaming all succeed and nothing stops it; begin, progress and end are all enabled in the queue's runs whatever the other actors do in between, the queue hears one outcome if and only if it accepted the file, and each refusal has its exact condition |
| Upload.OthersKeepUpload | src/vita/wifi_service.c:336-374 | no step of the interface or the worker touches the upload in progress or the list of files |
| Upload.Relay.SendExact | src/usb/catalog_client.c:44-52 | partial sends are forwarded in order, all of the data or a prefix, as the connection's counts say |
| Upload.Relay.Write | src/usb/catalog_client.c:303-310 | an upload never forwards more than declared, and counts what it forwards |
| Upload.Relay.Finish | src/usb/catalog_client.c:318-331 | finishing succeeds only when written equals expected |
| Upload.Relay.ReceiveData | src/usb/mtpif_adapter.c:51-66 | the receive loop relays the host's chunks as the value-level loop does, for every chunking |
| Upload.RelayConserves | src/usb/mtpif_adapter.c:51-66 | what is forwarded is a prefix of what was delivered and never more than declared; it is all the declared bytes if and only if the receive succeeds |
| Upload.Relay.Upload | src/usb/mtpif_adapter.c:68-89 | one upload command, for every behaviour of host and local connection: the status the host is told, what was forwarded and whether it was confirmed |
| Upload.CompleteRelaySucceeds | src/usb/mtpif_adapter.c:51-66 | however the host cuts the declared bytes into chunks, if nothing fails all of them are relayed and the receive succeeds |
| Upload.CompleteUploadSucceeds | src/usb/mtpif_adapter.c:68-89 | a confirmed upload over a working link is answered OK with all its bytes forwarded |
| Upload.OkExactlyWhen | src/usb/mtpif_adapter.c:72-89 | the host is told OK if and only if the upload began and either the receive failed or the finished upload was confirmed |
| Upload.OkMeansForwardedExactlyWhenReceived | src/usb/mtpif_adapter.c:86-89 | told OK, the declared bytes were forwarded in order and confirmed if and only if the receive succeeded |
| Upload.AbortedUploadIsAnsweredOk | src/usb/mtpif_adapter.c:86-89 | an upload whose host delivers nothing is aborted and yet answered OK |
| MtpCatalog.GetSucceedsForHandles | src/vita/mtp_catalog.c:70-74 | get(h) succeeds if and only if 1 ≤ h ≤ count, and yields the entry with that handle |
| MtpCatalog.ListChildren | src/vita/mtp_catalog.c:76-91 | counts all matches and stores, in order, those that fit, leaving the rest of the array alone |
| MtpCatalog.HandlesPartition | src/vita/mtp_catalog.c:34-91 | all handles are 1..count, and for every format filter they are the disjoint union of the root's and the three folders' |
| MtpCatalog.ListedCanBeFetched | src/vita/mtp_catalog.c:70-91 | every listed handle can be looked up |
| MtpString.UnitsDecode | src/vita/mtp_wire.c:22-61 | for every input, well-formed or not, the units decode to the code points read: surrogates are never lone or split |
| MtpString.StringRoundTrip | src/vita/mtp_wire.c:22-61 | well-formed UTF-8 without control characters that fits 254 units decodes to the same code points |
| MtpString.StepIsFaithful | src/vita/mtp_wire.c:28-49 | whatever code point is read other than a question mark stood in the text as its UTF-8 form |
| MtpString.Writer.Emit | src/vita/mtp_wire.c:3-6 | appends if and only if there is no earlier error and it fits; nothing behind the new end changes |
| MtpString.ReadPoint | src/vita/mtp_wire.c:28-49 | with the tests in the order of the source, on memory that ends at the terminator, the next code point is read without ever reading behind it |
| MtpString.Writer.WriteUnits | src/vita/mtp_wire.c:28-54 | the loop writes exactly the units, or reports that they do not fit, reading nothing behind the terminator |
| MtpString.Writer.ShiftRight | src/vita/mtp_wire.c:56-57 | moves the payload by one byte in place |
| MtpString.Writer.String | src/vita/mtp_wire.c:22-61 | writes count, units and zero terminator in place, or fails exactly when they do not fit; no byte behind the capacity changes |
| MtpWire.WriteDeviceInfo | src/vita/mtp_wire.c:68-95 | the buffer holds the device data set, or the call fails exactly when that does not fit |
| MtpWire.WriteStorageInfo | src/vita/mtp_wire.c:97-107 | the same for the storage data set |
| MtpWire.WriteObjectInfo | src/vita/mtp_wire.c:109-120 | the same for an entry's ObjectInfo: 52 fixed bytes and four strings, at most 4096 bytes |
| MtpWire.WritePropList | src/vita/mtp_wire.c:158-166 | the same for the list of properties |
| MtpWire.PropListIsComplete | src/vita/mtp_wire.c:131-166 | a property is listed for a format if and only if it is supported for it |
| MtpWire.WritePropDesc | src/vita/mtp_wire.c:168-180 | fails exactly for unsupported properties or lack of room |
| MtpWire.WritePropValue | src/vita/mtp_wire.c:182-208 | the buffer holds the value of a supported property, or the call fails |
| MtpWire.ValueHasTheDescribedType | src/vita/mtp_wire.c:147-208 | a property's value and its default have the size of the type the description announces, or are strings |
| MtpInfo.StringReads | src/vita/mtp_wire.c:22-61 | a reader of counted strings finds the code points of the text and stops behind it |
| MtpInfo.InfoReads | src/vita/mtp_wire.c:109-120 | a reader that knows only the standard's offsets finds in an ObjectInfo the entry's storage, format, protection, size, thumbnail format, size and dimensions, image dimensions, parent and association type, then its display name, both dates and no keywords, with nothing left over |
| MtpInfo.StorageReads | src/vita/mtp_wire.c:97-107 | the same reader finds in a StorageInfo a fixed, hierarchical, read-only store with its capacity, free bytes and two labels |
| MtpInfo.DeviceReads | src/vita/mtp_wire.c:68-95 | the same for the versions, operations and formats in the DeviceInfo |
| MtpInfo.SupportedReads | src/vita/mtp_wire.c:158-166 | the codes read from the property list of a format are exactly the supported ones |
| MtpInfo.DescriptionReads | src/vita/mtp_wire.c:168-180 | a description names its property and type, and is read-only |
| MtpInfo.PropertyReads | src/vita/mtp_wire.c:182-208 | read by the announced type, the value of every supported property is the entry's field for that code |
| MtpInfo.MatchingExactly | src/vita/mtp_catalog.c:76-91 | a handle is listed if and only if it leads to an entry with that parent and format |
| MtpInfo.ListingAgreesWithInfo | src/vita/mtp_server.c:118-162 | the objects listed under the root or a folder are exactly those whose ObjectInfo names that parent, and that format if one is asked for |
| MtpHost.BrowsingAgrees | src/vita/mtp_engine.c:12-101 | over whole exchanges: a handle is among those a host reads from an OK GetObjectHandles if and only if the ObjectInfo it reads for it names that parent and format |
| MtpHost.CountsAgree | src/vita/mtp_server.c:118-138 | GetNumObjects answers the number of handles that GetObjectHandles sends |
| MtpHost.FetchedAsAnnounced | src/vita/mtp_server.c:140-172 | an OK GetObject opened the object of its handle, and the host received as many bytes as that object's ObjectInfo announces |
| MtpHost.ObjectCommandsExactly | src/vita/mtp_server.c:140-172 | in a built catalogue handles 1 to count have an ObjectInfo, those behind the folders an object and those with a bitmap a thumbnail; every other request gets the code of its reason |
| MtpHost.ListingCommandsExactly | src/vita/mtp_server.c:118-138 | everything, the root and the three folders can be listed; other storages and parents get the code of their reason |
| MtpHost.NoSessionNoService | src/vita/mtp_server.c:52-65 | without a session every command but GetDeviceInfo and OpenSession is answered 0x2003 |
| MtpHost.OnlyAdvertisedIsServed | src/vita/mtp_wire.c:69-73 | operations that are not advertised, and the relay's own, are answered 0x2005; of the others only missing thumbnails and properties are |
| MtpServer.AnswersEcho | src/vita/mtp_server.c:19-31 | every reply carries the command's session and transaction; data comes only with OK, in an open session or for GetDeviceInfo |
| MtpServer.SessionsOpenAndClose | src/vita/mtp_server.c:59-69 | the session changes only by a well-formed OpenSession while none is open and by CloseSession |
| MtpServer.ExecutionFailsOnlyWithoutFormat | src/vita/mtp_server.c:46-175 | with 4096 bytes of room, execution fails if and only if GetObjectPropsSupported lacks its parameter in a session |
| MtpServer.InfoSize | src/vita/mtp_wire.c:109-113 | bytes 8 to 11 of an ObjectInfo hold the object's size |
| MtpServer.ListedObjectsAreConsistent | src/vita/mtp_server.c:140-172 | every listed handle gets an OK ObjectInfo within 4096 bytes, and GetObject of anything but a folder announces exactly its size |
| MtpServer.Server.SetStorage | src/vita/mtp_server.c:40-44 | free space is never reported above capacity |
| MtpServer.Server.Execute | src/vita/mtp_server.c:46-175 | session, reply and payload buffer are those of the answer, in every branch |
| MtpServer.Server.ExecuteListing | src/vita/mtp_server.c:118-138 | counts and announced lengths of listings |
| MtpServer.Server.ExecuteObject | src/vita/mtp_server.c:140-172 | the object commands, including oversized objects and folders |
| MtpEngine.StreamConcatenates | src/vita/mtp_engine.c:12-60 | in a contiguous stream the chunks concatenate to the body and each offset is the length of what came before |
| MtpEngine.Adapter.SendData | src/usb/mtpif_adapter.c:110-127 | only non-empty, contiguous chunks of at most 65536 bytes under one total reach the device |
| MtpEngine.Adapter.ReadObject | src/usb/catalog_client.c:216-224 | a read yields at most what is wanted and left, in stream order |
| MtpEngine.SendHandles | src/vita/mtp_engine.c:12-36 | for any catalogue, filter and scratch of at least 4096 bytes the contiguous chunks are a prefix of count and matching handles, all of it on success; a wrong count cannot occur and, up to 65536 bytes of scratch, no chunk fails the adapter's checks |
| MtpEngine.SendObject | src/vita/mtp_engine.c:38-60 | what is sent is what was read, in order; success means the announced length; closed exactly if opened |
| MtpRuns.Run | src/vita/mtp_engine.c:62-101 | one command puts one data phase and one response on the wire, in that order and with its transaction, and says whether the response was delivered; the adapter refuses a chunk if and only if it is a thumbnail above 65536 bytes |
| MtpRuns.Serve | src/vita/mtp_engine.c:62-101 | the same for every sequence of commands, with the session threaded through; over the whole run the adapter refuses a chunk if and only if some GetThumb met a bitmap above 65536 bytes |
| MtpRuns.OneResponsePerCommand | src/vita/mtp_engine.c:62-101 | over every run one response is attempted per command, the i-th for the i-th command with its transaction, and no others; each is marked delivered or not |
| MtpRuns.ObjectsAreClosed | src/vita/mtp_engine.c:38-60 | over every run each opened object is closed exactly once, before the response and before another opens |
| MtpRuns.DataArrives | src/vita/mtp_engine.c:75-99 | an OK means the chunks sum to the announced total and concatenate to the announced content |
| MtpRuns.ListingArrives | src/vita/mtp_engine.c:12-36 | an OK to GetObjectHandles means the host has le32(count) and the matching handles in order |
| MtpRuns.ObjectInfoArrives | src/vita/mtp_server.c:150-162 | an OK to GetObjectInfo means the host has that entry's ObjectInfo |
| MtpRuns.ThumbnailsFitOneChunk | src/vita/mtp_engine.c:85-97 | an OK to GetThumb carries at most 65536 bytes |
| MtpRuns.SendableThumbnails | src/vita/mtp_snapshot.c:63-66 | an announced bitmap can be sent if and only if its padded rows take at most 65482 bytes, for widths of whole blocks at most 21827 pixels; 256 by 256 cannot |
| MtpRuns.DataNeedsSession | src/vita/mtp_server.c:52-65 | over every run data appears only in an open session or for GetDeviceInfo |
| MtpRuns.OpenSessionsHaveAnOpener | src/vita/mtp_server.c:59-69 | over every run a session is open if and only if some OpenSession has no CloseSession behind it |
| MtpSnapshot.CopyName | src/vita/mtp_catalog.c:3-15 | accepts exactly the names of 1 to 240 plain bytes not ending in space or dot, and copies them in place |
| MtpSnapshot.CopyText | src/vita/mtp_snapshot.c:5-21 | copies the longest run of whole sequences that fits and terminates it inside the buffer; it reads behind the source's terminator if and only if the first sequence that is not whole announces two bytes or more behind it and fits the buffer |
| MtpSnapshot.LoneLeadReadsPast | src/vita/mtp_snapshot.c:13-16 | a text of one four-byte lead is read two bytes behind its terminator |
| MtpSnapshot.WholeTextsReadInside | src/vita/mtp_snapshot.c:5-21 | a text of whole sequences is never read behind its terminator |
| MtpSnapshot.EncodedIsWhole | src/vita/mtp_snapshot.c:8-16 | well-formed UTF-8 is made of whole sequences |
| MtpSnapshot.TitleIsReadInside | src/vita/mtp_snapshot.c:29-30 | the title a display name is made of was copied before, so it is read inside its buffer |
| MtpSnapshot.DisplayName | src/vita/mtp_snapshot.c:23-45 | the display buffer afterwards, byte for byte, including the early returns |
| MtpSnapshot.DisplayIsTidy | src/vita/mtp_snapshot.c:23-45 | for every title the display buffer stays non-empty, terminated and free of path and control characters |
| MtpSnapshot.RenamedShows | src/vita/mtp_snapshot.c:23-45 | a title with some other character shows as its trimmed, sanitised text with the name's extension |
| MtpSnapshot.Catalogue.AddEntry | src/vita/mtp_snapshot.c:47-69 | empty media is skipped; the entry is added exactly when every condition of `vcm_mtp_catalog_add` holds; otherwise nothing changes |
| MtpMedia.KeptIsLongest | src/vita/mtp_snapshot.c:5-21 | a copied text is the longest prefix of whole sequences that leaves room for the terminator |
| MtpMedia.FittingIsKept | src/vita/mtp_snapshot.c:5-21 | well-formed UTF-8 that fits is copied whole |
| MtpMedia.TrimmedExactly | src/vita/mtp_snapshot.c:39-40 | trimming takes exactly the trailing spaces and dots |
| MtpMedia.EntryCarries | src/vita/mtp_snapshot.c:47-69 | every field of an added entry is that of its medium, texts as far as they fit, and its parent is the folder of its kind |
| MtpMedia.ShownName | src/vita/mtp_snapshot.c:23-45 | an entry shows its file name, or its title, made safe and trimmed, with the extension of the file |
| MtpMedia.HostSeesMedia | src/vita/mtp_snapshot.c:47-69 | a host reads of a medium in the library its size, format, dimensions, bitmap size, dates, and the folder of its kind |
| MtpValidate.ScanField | src/usb/catalog_client.c:121-133 | the scan accepts exactly the non-empty, terminated fields of allowed bytes |
| MtpValidate.Validate | src/usb/catalog_client.c:103-148 | accepts exactly the catalogues whose header and entries are in order |
| MtpValidate.ValidatedIsServed | src/usb/catalog_client.c:103-148 | whatever was received, in an accepted catalogue the handles are the positions, free space is within the capacity, and under every format root and folders list each object exactly once |
| MtpValidate.AcceptedEntry | src/usb/catalog_client.c:112-141 | in an accepted catalogue every text ends inside its buffer and every announced bitmap is that of its dimensions |
| MtpValidate.BuildSnapshot | src/vita/mtp_snapshot.c:71-93 | adding the records one by one, giving up at the first failure |
| MtpValidate.SnapshotsPassValidation | src/usb/catalog_client.c:103-148 | every built catalogue passes validation if and only if no record announces a thumbnail above 256 pixels |
| MtpValidate.BuiltIsServed | src/vita/mtp_catalog.c:45-68 | every built catalogue is numbered by position, filed under its folders, with sizes fit for a 32-bit transfer |
| MtpValidate.BuiltObjectsAreConsistent | src/vita/mtp_server.c:140-172 | whatever the library holds, every handle listed from the built catalogue is served consistently |
| MtpValidate.AnnouncedThumbnail | src/vita/mtp_snapshot.c:63-66 | a photo announces exactly the size of the converted bitmap of its dimensions |
| Boxes.ScanBoxes | src/desktop/subtitle_formats/build_vita_m4t.py:52-63 | the scanning loop computes the box list, or fails exactly when there is none |
| Boxes.ScanWritten | src/desktop/subtitle_formats/build_vita_m4t.py:44-63 | scanning finds a written box with its offset, size and type |
| Boxes.ScannedInside | src/desktop/subtitle_formats/build_vita_m4t.py:52-63 | scanned boxes lie inside the range |
| SegmentIndex.MoofReads | src/desktop/subtitle_formats/build_vita_m4t.py:140-149 | a written moof reads back: decode time, duration, and data 126 bytes behind its start |
| SegmentIndex.SidxReads | src/desktop/subtitle_formats/build_vita_m4t.py:152-157 | a written index reads back: earliest time, first offset and every reference |
| M4tFile.MakeSidx | src/desktop/subtitle_formats/build_vita_m4t.py:160-178 | the loop over running offsets and ticks writes the master index and its children |
| M4tFile.MakeFragments | src/desktop/subtitle_formats/build_vita_m4t.py:181-202 | the loop writes the fragments with their decode times |
| M4tFile.IndexLeadsToDocument | src/desktop/subtitle_formats/build_vita_m4t.py:140-202 | following master index, child i and first offset lands on byte 0 of moof i; durations and times agree, the data offset selects exactly the XML, and the index holds the fragment's size if and only if it is below 2 GiB, where the type bit starts |
| M4tFile.FileStructure | src/desktop/subtitle_formats/build_vita_m4t.py:181-202 | the file is the header's boxes, n+1 index boxes, then n pairs of moof and mdat |
| M4tFile.TotalTicks | src/desktop/subtitle_formats/build_vita_m4t.py:181-202 | the ticks of all fragments are 30 per millisecond, exactly |
| M4tBuild.PatchMoovInPlace | src/desktop/subtitle_formats/build_vita_m4t.py:81-102 | editing the bytearray in place computes the patched box, or fails exactly when there is none |
| M4tBuild.PatchKeepsBox | src/desktop/subtitle_formats/build_vita_m4t.py:81-102 | patching keeps length and box header, and the duration reads back |
| M4tBuild.BuildIsIndexed | src/desktop/subtitle_formats/build_vita_m4t.py:181-202 | every successful build is ftyp, moov, n+1 index boxes and n pairs, whatever the template holds inside its moov; every document is reached through the index; the moov holds the duration of 30 ticks per millisecond where its mehd was found |
| M4tPatch.PatchedIs | src/desktop/subtitle_formats/build_vita_m4t.py:81-102 | for a template whose boxes hold their fields, patching succeeds if and only if the arguments and the two versions are as demanded and the sample description stands in the result, which is the six edits |
| M4tPatch.PatchedReads | src/desktop/subtitle_formats/build_vita_m4t.py:81-102 | a player that scans the patched box finds the same boxes and in them width and height in 16.16, the language, the duration, and zero creation and modification times |
| M4tPatch.LanguageReads | src/desktop/subtitle_formats/build_vita_m4t.py:73-78 | the three letters of the language are recovered from its 15-bit code |
| SubtitleChunks.ClockRoundTrip | src/desktop/subtitle_formats/build_vita_m4t.py:105-115 | milliseconds(clock(ms)) = ms for every ms |
| TtmlClock.ClockReads | src/desktop/subtitle_formats/build_vita_m4t.py:111-115 | every clock value has two or more digits, colon, two digits, colon, two digits, point and three digits, minutes and seconds below 60, and a reader that takes the fraction by the position of its digits yields the millisecond |
| TtmlClock.ChunksPlayTheTimeline | src/desktop/subtitle_formats/build_vita_m4t.py:118-137 | read in this way, the chunk that covers an instant shows exactly the source cues |
| SubtitleChunks.ClipShowsTheSame | src/desktop/subtitle_formats/build_vita_m4t.py:118-137 | at every instant of a chunk the clipped cues shown are exactly the source cues shown |
| SubtitleChunks.FitChunk | src/desktop/subtitle_formats/build_vita_m4t.py:118-137 | the halving loop terminates with the first of its windows whose document fits, and fails if and only if none does |
| SubtitleChunks.GoodChunkMeans | src/desktop/subtitle_formats/build_vita_m4t.py:118-137 | a chunk has positive length within the chunk and byte limits, and is cut short only for its size and never below 40 ms |
| SubtitleChunks.ShortChunkIsHalf | src/desktop/subtitle_formats/build_vita_m4t.py:131-135 | a shortened chunk is half as long as a window whose document was too large, or 40 ms |
| SubtitleChunks.ChunksAreUnique | src/desktop/subtitle_formats/build_vita_m4t.py:118-137 | the chunks are determined by cues and limits |
| SubtitleChunks.XmlSamples | src/desktop/subtitle_formats/build_vita_m4t.py:118-137 | on success the chunks partition [0, duration); it fails for a malformed clock exactly if there is one, and for density if and only if chunks lead up to an instant at which no window fits, where 40 ms or less exceed the limit |
| SubtitleChunks.ChunksShowTheTimeline | src/desktop/subtitle_formats/build_vita_m4t.py:118-137 | at every instant the chunk that covers it shows exactly the source cues |
| SubtitleChunks.ChunkTicks | src/desktop/subtitle_formats/build_vita_m4t.py:118-137 | the chunks' ticks are 30 × duration |
| CaptionWrap.WrapLine | src/desktop/subtitle_formats/srt_to_vita_ttml.py:83-102 | every output line is non-empty, at most 32 cells, and joins the words' pieces in order; together they carry exactly the text's characters up to white space; no line is broken before it has to be: with a space and the next word, or inside a word with the next character, it would exceed 32 cells |
| CaptionWrap.PiecesOfWord | src/desktop/subtitle_formats/srt_to_vita_ttml.py:95-99 | the pieces of a word fit and make up the word, which stays whole if and only if it has at most 32 cells |
| CaptionFill.WrappingIsUnique | src/desktop/subtitle_formats/srt_to_vita_ttml.py:83-102 | the text alone determines the lines: any other lines that carry the same pieces, fit and are broken only where they must be are the same |
| CaptionFill.PiecesAreUnique | src/desktop/subtitle_formats/srt_to_vita_ttml.py:95-99 | a word is cut in exactly one way into pieces that fit and cannot take the next character |
| CaptionFill.SplittingAtWhite | src/desktop/subtitle_formats/srt_to_vita_ttml.py:87 | white space separates words and nothing else does |
| CaptionFill.ShortTextIsOneLine | src/desktop/subtitle_formats/srt_to_vita_ttml.py:83-102 | a text whose words joined by single spaces take at most 32 cells gives exactly that one line, and a blank text none |
| CaptionWrap.WrappingLosesNothing | src/desktop/subtitle_formats/srt_to_vita_ttml.py:83-102 | the output carries exactly the characters of the text in order, up to white space |
| Dxt1.UnpackedPacks | src/vita/mtp_thumb.c:12-17 | a block colour packs back to its five, six and five bits |
| Dxt1.WidenedFive | src/vita/mtp_thumb.c:12-17 | a widened channel repeats its high bits and is within one of the exact proportion |
| Dxt1.PaletteMixes | src/vita/mtp_thumb.c:39-48 | in each channel the third and fourth colours are the thirds between the ends rounded down, or the half rounded down and black, by the order of the two colours |
| Dxt1.ViewerShowsTexels | src/vita/mtp_thumb.c:28-60 | a viewer that knows only the bitmap's header fields shows at every pixel the texel of the image |
| Dxt1.SelectorOfWord | src/vita/mtp_thumb.c:41-52 | shifting the little-endian word selects the same two bits as the row byte |
| Dxt1.DecodeBlock | src/vita/mtp_thumb.c:36-60 | one block fills its sixteen pixels and no others |
| Dxt1.DecodeBlocks | src/vita/mtp_thumb.c:36-60 | the nested loops fill every pixel with its texel, in bounds |
| Dxt1.WriteHeader | src/vita/mtp_thumb.c:28-35 | the header fields of the bitmap read back |
| Dxt1.Convert | src/vita/mtp_thumb.c:19-63 | an accepted image that fits gives a bitmap of the announced size whose every pixel is its texel; anything else is refused untouched |
| Id3Text.AppendUtf8 | src/vita/id3_tags.c:72-93 | appends the encoding of a code point, or fails exactly for zero, surrogates and lack of room |
| Id3Text.DecodeText | src/vita/id3_tags.c:100-129 | the buffer holds exactly the frame's code points up to its first zero in UTF-8, or the call fails exactly when there are none or they do not fit |
| Id3Text.Utf16RoundTrip | src/vita/id3_tags.c:109-129 | a UTF-16 frame written for any text without zeros decodes to that text |
| Id3Written.Latin1RoundTrip | src/vita/id3_tags.c:100-108 | an ISO-8859-1 frame decodes to the same characters |
| Id3Written.ByteOrdersAgree | src/vita/id3_tags.c:95-129 | both byte orders of UTF-16 decode alike |
| Id3Written.TagSizeReads | src/vita/id3_tags.c:148-151 | every tag size below 2^28 is read as it was written |
| Id3Written.JpegReads | src/vita/id3_tags.c:17-39 | the dimensions found in a JPEG file are those of its frame header, behind any other segments |
| Id3Written.ApicReads | src/vita/id3_tags.c:41-70 | the cover of a written front-cover frame is exactly the picture in it |
| Id3Frames.TagsComeFromFrames | src/vita/id3_tags.c:144-196 | on success the frames stand one behind the other, each known by its four letters and its big-endian size; the track is the number of the last TRCK frame or 0, the cover the first usable picture of an APIC frame |
| Id3Frames.KindById | src/vita/id3_tags.c:164-183 | title, artist, album, album artist, genre, track and picture are the frames TIT2, TPE1, TALB, TPE2, TCON, TRCK and APIC, and no others |
| Id3Frames.AcceptedExactly | src/vita/id3_tags.c:144-196 | a tag is accepted if and only if its header is right, its frames can be read, and a title and an artist frame are there |
| Id3Tag.ParseTrack | src/vita/id3_tags.c:131-142 | the loop yields the leading number if it is 1..9999; leaving early on large values never matters |
| Id3Tag.JpegDimensions | src/vita/id3_tags.c:17-39 | the scan stays inside the data, terminates, and yields the first frame header's dimensions |
| Id3Tag.ParseApic | src/vita/id3_tags.c:41-70 | the cover range of a front-cover JPEG picture frame |
| Id3Tag.ParseId3 | src/vita/id3_tags.c:144-196 | the parsing loop stays inside the data on every input and computes the specified tags |
| Id3Tag.FieldsAreTheLastFrames | src/vita/id3_tags.c:158-195 | on success every text field is the UTF-8 form of the code points of the last frame of its kind up to their first zero, non-empty and within its buffer, and is empty without such a frame; only the album artist falls back to the artist |
| Id3Tag.ParsedIsSound | src/vita/id3_tags.c:144-196 | on success title, artist and album artist are non-empty, the track is at most 9999, and a cover lies inside the tag and starts with a JPEG SOI |

## Left out

- Library access: SQLite, media databases and the virtual file system; the library is an arbitrary sequence of records.
- The desktop application, its web UI, media probing with ffmpeg and Pillow, and the COM and subprocess code.
- Threads, mutexes, dialogs and kernel hooks: a locked region is one atomic step.
- HTTP header parsing, routing and the JSON status; `receive_file` starts behind its path checks, so a name too long for its path buffer is not modelled.
- `vcm_queue_usb_target` and the upload-target formatting of `src/vita/wifi_service.c`.
- XML serialisation and HTML or ASS cleanup of subtitles: rendering is an arbitrary function from cues to bytes.
- The bytes of the M4T template header: any template is admitted.
- Reinterpreting received bytes as catalogue structs: validation starts from the fields, with sizes as the ABI fixes them.
- Unicode tables: a caption character carries its width class and whether it is white space.
- ImportSafety.AtMostOneExport: the protocol is a step machine over file-system effects, not a method, because a crash may stop the code between any two of them; atomic rename that refuses an existing target, truncation that keeps the file, and a flushing sync are assumed, and an id is uploaded once.
- M4tPatch.PatchedReads: asks for boxes large enough for their fields, because in a smaller one the source writes into whatever follows, box headers included.
- SubtitleChunks.ClockRoundTrip: `Milliseconds` reads ASCII digits only, while Python's `int` also reads other digits, signs and underscores.
- M4tFile.IndexLeadsToDocument: samples whose sizes or ticks overflow their fields make `struct.pack` fail; the model states this as `Packable`, which `BuildIsIndexed` derives from a successful build.
- TransferSafety.CountersAreExact: `failed` is an unbounded number, because only more than 2^31 retries could overflow it.
- QueueRequest.HandlePublish: starts from a body received in full; a connection that breaks off before changes nothing.
- MtpString.Writer.String: texts are C strings without their terminator; a zero byte inside one cannot occur in the source.
- MtpRuns.Serve: private upload and queue commands go to the relay in `Upload` and are not part of this run; a failing phase change before the engine starts is not modelled.
- Upload.Inbox.ReceiveFile: removing the partial file is taken to succeed, because the source ignores its result, and a rename to refuse an existing final name.
