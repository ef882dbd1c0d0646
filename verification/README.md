# Verified models of the MPICH2 example programs and runtime fragments

This project models, in Dafny, the parts of the repository whose behaviour is hardest to get right by reading: several
protocols with unboundedly many interleavings, and some sequential code that updates lists, arrays and text in place.

- **The parallel Mandelbrot programs** (`examples/pmandel.c`, `pmandel_spawn.c`, `pmandel_fence.c`). A root cuts an
  image into 400 tiles (`Tiling`, `TilingOrder`), shuffles them, and hands them to workers. `Dispatch` is the
  message-passing root and workers as a state machine: messages keep their order per pair of processes and tag, a send
  may or may not be buffered, and any number of images follow each other. `DispatchResults` has what every run keeps
  and reaches, `DispatchHistory` what is left of earlier images and how sends that are not buffered wait.
  `FenceRounds` is the one-sided program, in which a put may land at any time up to the fence that closes it;
  `FenceResults` and `FencePixels` say what that achieves. `Image` is the assembly of the picture, `Escape` the
  escape-time loop over the reals and `MandelbrotImage` the picture that comes of both.
- **The byte stream to the visualizer** (`examples/windows/pmandel_vis/sock.cpp`): `Sockets` has the loops around `send` and
  `recv`, `Stream` the format and the bitmap, `Transmission` the writing of an image and the reading loop, `BrokenWrites` what
  is read after a write has stopped in the middle, `EndToEnd` the whole way from the dispatcher to the bitmap.
- **The counting fence** of the one-sided design notes (`doc/notes/rma/dm.c`), for the loop guard the notes describe:
  `CountingFence` has the protocol and its counters, `FenceMatching` the tags by which its data messages are matched,
  `FenceProgress` shows that it always ends, and `FenceTags` exactly when the data gets to where it belongs. `PrintedGuard`
  is about the guard as it is printed.
- **The passive-target accumulate loop** (`doc/notes/rma/passive_acc.c`): `PassiveAccumulate`.
- **The global critical section** (`src/include/mpiimplthread.h`): `CriticalSection` for nested calls, `FirstUse` for the
  first-use initialisation macros; `RefCount` for reference counts (`src/include/mpiimpl.h`).
- **The two-party barrier** made of four events (`examples/windows/pmandel_vis/pman_visView.cpp`): `EventBarrier`.
- **The coverage list** (`src/binding/cxx/mpicovsimple.cxx`): `Coverage` is the doubly linked list with its cursor,
  `CoverageSpec` what its operations do to a sorted sequence of records, `CoverageCalls` what any number of them
  leave, `CoverageOrder` what the order of files matters for, `CoverageText` the files.
- **The `mpiexec` command line parser** (`archive/mpiexec/mpiexec_args.c`): `MpiexecArgs` works in place on the
  argument vector; `MpiexecSpec` says what a command line means, `MpiexecOptions` which ones are accepted,
  `MpiexecOutcomes` how the others end, `MpiexecLines` how lines are split, `MpiexecResults` what follows,
  `MpiexecMeant` when first words, files and unknown options mean what was meant. `Decimal` is `atoi`.
- **The text form of example points** (`examples/windows/pmandel_vis_net/Form.cs`): `ExamplePoint`, `ExamplePointSpec`,
  `ExamplePointResults`, `ExamplePointOptions`, `ExamplePointText`.

A protocol is a state, a step relation (`Enabled` and `Apply`) and `Run`, the sequences of states that steps produce from
an initial one; results hold in every `Reachable` state. Sequential code that updates variables is a method whose
contract equates what it computes with a function; what the program is for is then proved about that function.

## Where the code does not do what is said of it

- `output_data` uses the height as row stride. The assembled array is the picture, for every picture, exactly when the
  image is square or has one row (`StrideIff`); `WritesInRangeIff` says when it stays inside the array at all.
- The visualizer takes an all-zero header for the end of an image. An image has such a tile, and is cut short, exactly when
  both dimensions are below forty pixels (`ZeroTileIff`, `StreamCarriesImageIff`).
- The filler handed to idle workers by `pmandel_fence.c` makes them put before the beginning of the root's window. That
  happens exactly when the number of workers does not divide the number of tiles (`FillerPutIff`).
- The design notes say that the tag of a get or large put must be unique for the epoch; `dm.c` counts it per origin. When a
  get has the tag of a large put from its target back to its origin, the two messages can swap their data and the fence
  returns all the same. Every operation is sure to have had its effect exactly when no two tags meet so
  (`EffectIsSureIff`, `CollisionSwaps`).
- The loop guard of `dm.c` is printed with `&&`, against the text of `dm-mt.c`. As printed the fence of any epoch can return
  with a call, a request or a flag of that epoch still open exactly when one is open, and with an operation that has had no
  effect exactly when there is one (`PrintedGuardReturnsEarlyIff`, `PrintedGuardLosesEffectIff`). A program can rely on it at
  a process exactly when that process calls nothing in the epoch and nothing is called on it (`PrintedIsSureIff`).
- The root does not look at how many bytes a write has written. On a connection that stays broken nothing is misread; when a
  write stops in the middle of a piece and later ones go through, that piece is misread exactly when enough comes to make a
  piece of it but not the bytes that were missing (`MisreadIff`, `PixelsMisreadIff`).
- The text that forbids reading a reference count again after releasing is right to: the object is never freed twice exactly
  when there is a single holder, since a holder can take references on behalf of others (`CountReadAgainIff`).
- The statement form of first-use initialisation does not test again under the mutex: it runs once for sure only with a
  single thread (`OnceIff`), and otherwise up to once for every thread.
- A coverage count of -1 is the end-of-input marker, so a written file reads back whole exactly when no count is -1
  (`ReloadIff`).
- `mpiexec` documents `-soft` and `-arch` but knows neither: options are parsed as they are meant exactly when there is no
  such option, and otherwise the value of the first becomes the executable (`UnknownOptionIff`). Words after the file name of
  `-configfile` are ignored (`FileEntry`).
- The first word of a file is trimmed once and that of a block twice, so a file is sure to stand for its lines exactly when
  its first word is the same after one and two trims or names nothing known (`FirstWordIff`, `FileFirstWordIff`). A word
  that begins with a colon is a word in a file and ends a block of the command line (`ParsedFileIsItsLinesIff`), and a line
  that asks for another file always fails (`AskingFileFails`).
- Reading a printed point restores it exactly when it is one the program keeps and its name has no double quote
  (`RoundTripIff`); ordering and cutting bounds can still leave an empty interval (`CutIsInSquareIff`).

## Model

| member | source | states |
|---|---|---|
| `Tiling.MakeTiles` | examples/pmandel.c:355-373 | the two loops fill the four arrays with the coordinates of the 20 x 20 tiles, for any image size |
| `Tiling.Shuffle` | examples/pmandel.c:375-384 | the four arrays stay in step: read together they are one sequence of tiles after the same exchanges |
| `Tiling.ShuffleKeepsPieces` | examples/pmandel.c:375-384 | whatever the random numbers, shuffling keeps the multiset of tiles |
| `Tiling.TilesCover` | examples/pmandel.c:355-373 | a pixel is in some tile exactly when it is in the covered rectangle: twenty times a twentieth of each dimension, or all of one below twenty |
| `Tiling.TilesDisjoint` | examples/pmandel.c:355-373 | with both dimensions at least twenty no pixel is in two tiles |
| `Tiling.TilesOverlapBelowTwenty` | examples/pmandel.c:367-368 | below twenty pixels the clamped tiles repeat |
| `Tiling.ZeroTileIff` | examples/pmandel.c:365-372 | some tile has four zero coordinates exactly when both dimensions are below forty |
| `Tiling.RearrangedTilesCover` | examples/pmandel.c:355-384 | after the shuffle the tiles are still well formed and still cover the same pixels |
| `TilingOrder.TilesSideBySide` | examples/pmandel.c:355-373 | from twenty pixels each way on the tiles begin in the corner, all have a twentieth of each dimension, and follow each other down one column after the other |
| `TilingOrder.EveryOrderOccurs` | examples/pmandel.c:375-384 | the shuffle can bring the tiles into any order at all: 400 draws are enough, and there are draws for any larger number |
| `Image.OutputData` | examples/pmandel.c:1306-1317 | the drawing loops update the array as the piece painted pixel by pixel with the height as stride |
| `Image.WritesInRangeIff` | examples/pmandel.c:1314 | all writes stay in the array exactly when the cell of the last covered pixel does |
| `Image.PaintValue` | examples/pmandel.c:1306-1317 | when all writes to a cell agree, the order of the pieces does not matter |
| `Image.PaintOrigin` | examples/pmandel.c:1306-1317 | a cell holds its old value or the value of a pixel that was written to it |
| `Image.RightStrideShowsPicture` | examples/pmandel_fence.c:592-653 | with the width as stride, any drawing order of the tiles gives the picture where they reach and leaves the rest alone |
| `Image.SquareImageIsRight` | examples/pmandel.c:1306-1317 | for a square image or a single row `output_data` gives the picture, whatever the order |
| `Image.OtherShapesAreWrong` | examples/pmandel.c:1314 | for any other shape there is a picture that is lost |
| `Image.StrideIff` | examples/pmandel.c:1306-1317 | all writes stay in the array and every picture is assembled right exactly when the image is square or has one row |
| `Image.UncoveredUntouched` | examples/pmandel.c:355-373 | pixels outside the covered rectangle keep what the array held |
| `Escape.SingleMandelbrotPoint` | examples/pmandel.c:1279-1304 | the loop returns the least index at which the orbit is not below the limit, or the maximum if there is none before it |
| `Escape.AbsoluteBelow` | examples/pmandel.c:1264-1270 | comparing squares is comparing the modulus |
| `Escape.StepGrows` | examples/pmandel.c:1295-1298 | from modulus at least 4, with the square of the constant's at most 8, a step multiplies the squared modulus by at least 7 |
| `Escape.EscapedStaysEscaped` | examples/pmandel.c:1293-1301 | an orbit that has left the limit never comes back, so the test is sound |
| `Escape.NotEscapedIff` | examples/pmandel.c:1293-1303 | the count is the maximum exactly when the last point looked at is still inside |
| `Escape.EscapeIsUnique` | examples/pmandel.c:1279-1304 | a point has one count |
| `Escape.SumLaws` | examples/pmandel.c:1246-1253 | sums: real parts and multiples of i are added apart |
| `Escape.ProductLaws` | examples/pmandel.c:1208-1217 | products: commutative, distributive, as usual for reals, and i times i is -1 |
| `Escape.NormIsProduct` | examples/pmandel.c:1264-1270 | the squared modulus is the product with the conjugate |
| `MandelbrotImage.CountPixels` | examples/pmandel.c:478-524 | the worker's two loops pack, row after row, the counts of the points that an area's pixels have in the grid |
| `MandelbrotImage.PointsAreGrid` | examples/pmandel.c:478-498 | pixel (0, 0) is the upper left corner of the view; a step right adds a share of the width to the real part, a step down takes a share of the height from the imaginary part |
| `MandelbrotImage.GridIsPoints` | examples/pmandel.c:478-498 | no other points are such a grid |
| `MandelbrotImage.GridCorner` | examples/pmandel.c:478-498 | a whole width and height away lies the lower right corner |
| `MandelbrotImage.AssembledCounts` | examples/pmandel.c:416-449 | after any run every pixel that tiles reach holds the least index at which the orbit of its point of the grid escapes, with the point itself or the Julia constant added, for a square image or a single row |
| `MandelbrotImage.FinishedCounts` | examples/pmandel_fence.c:435-532 | the same for the one-sided program and any shape |
| `Dispatch.RunInv` | examples/pmandel.c:400-449 | after every run, for both programs and any number of images, the invariant linking root, channels and workers holds |
| `Dispatch.StepInv` | examples/pmandel_spawn.c:458-509 | every step of root, worker or channel keeps it |
| `DispatchResults.SentEqualsReceivedPlusOutstanding` | examples/pmandel.c:400-449 | tiles sent are tiles drawn plus tiles outstanding, at most one with each worker, none with two, none both |
| `DispatchResults.DataMatchesHeader` | examples/pmandel.c:419-423 | the data received is that of the area in the header before it, and as long as the header makes room for |
| `DispatchResults.HeaderNamesItsSender` | examples/pmandel.c:419-421 | the process named in a header is the one that sent it, and works on the current image |
| `DispatchResults.EveryTileExactlyOnce` | examples/pmandel.c:416-449 | when the tail loop ends every tile was drawn exactly once with its own pixels, every worker has its stop message, nothing is on its way back |
| `DispatchResults.NoDeadlock` | examples/pmandel.c:400-449 | until all is done some process can take a step, buffered sends or not |
| `DispatchResults.EveryStepDescends` | examples/pmandel_spawn.c:458-509 | every step lowers a measure of the work left |
| `DispatchResults.RunsAreFinite` | examples/pmandel_spawn.c:458-509 | a run is no longer than a bound set by tiles, workers and images |
| `DispatchResults.RunsEndWell` | examples/pmandel.c:400-449 | every run can go on until all images are finished and every worker has read its last stop message |
| `DispatchResults.AssembledImage` | examples/pmandel.c:416-449 | after any run the array of a square image is the sequentially computed picture where tiles reach, and zero elsewhere |
| `DispatchResults.ClampChildren` | examples/pmandel_spawn.c:1056-1065 | any requested number of children becomes one between 1 and 400, unchanged if it was |
| `DispatchHistory.EarlierImages` | examples/pmandel.c:400-459 | after any run every earlier image was drawn completely, with its own limits, before the next was begun |
| `DispatchHistory.RootWaits` | examples/pmandel.c:404-432 | after a send that is not buffered the root can do nothing |
| `DispatchHistory.RootStillWaits` | examples/pmandel.c:404-432 | until its message has been received |
| `DispatchHistory.WorkerWaits` | examples/pmandel.c:519-523 | after such a send a worker can do nothing |
| `DispatchHistory.StillWaits` | examples/pmandel.c:519-523 | until the root receives from it |
| `Stream.IntRoundTrip` | examples/pmandel.c:1321-1322 | a 32-bit integer written as four bytes is read back |
| `Stream.IntsRoundTrip` | examples/pmandel.c:1321-1322 | so is a row of them |
| `Stream.HeaderLayout` | examples/pmandel.c:1321 | a header is the first and last column and the first and last row, in four bytes each |
| `Sockets.Connection.SockWrite` | examples/pmandel.c:587-631 | the stream gains as many bytes of the buffer as the calls of `send` make room for; it completes when none fails and there is room for all, fails exactly at a call that fails, and otherwise uses up all calls |
| `Sockets.Connection.ReadData` | examples/windows/pmandel_vis/sock.cpp:291-327 | the buffer gains the next bytes of the stream, as many as the calls of `recv` bring; it completes when none fails, they bring enough and enough is there, and otherwise says why |
| `Sockets.BroughtIsMin` | examples/windows/pmandel_vis/sock.cpp:297-325 | however the counts are split, together they bring the least of what is asked for, what is there and their sum |
| `Stream.ReaderStopsAtFirstZero` | examples/windows/pmandel_vis/sock.cpp:338-345 | the reader decodes the pieces written, in order, up to the first all-zero header |
| `Stream.StreamRoundTripIff` | examples/windows/pmandel_vis/sock.cpp:338-372 | all of them exactly when none has the all-zero header |
| `Stream.DrawPiece` | examples/windows/pmandel_vis/sock.cpp:354-363 | the drawing loops set the pixels of the piece |
| `Stream.BitmapShowsPicture` | examples/windows/pmandel_vis/sock.cpp:354-363 | after all pieces the bitmap shows the picture where tiles reach, for any shape |
| `Transmission.WritePiece` | examples/pmandel.c:1318-1324 | the two writes for a piece, the result of each ignored |
| `Transmission.WriteImage` | examples/pmandel.c:416-459 | each write adds a beginning of its bytes; all together are a beginning of header and pixels of every piece and the end marker as long as nothing moves after a failure, and all of it when nothing fails and there are calls enough |
| `Transmission.ReadHeader` | examples/windows/pmandel_vis/sock.cpp:340-344 | a header is the next sixteen bytes of the stream; why it is not read otherwise |
| `Transmission.ReadPiece` | examples/windows/pmandel_vis/sock.cpp:340-352 | reading takes exactly the next header and the pixels it announces, or less than that, and then says why |
| `Transmission.GetPmandelData` | examples/windows/pmandel_vis/sock.cpp:329-373 | however the bytes are split and however it ends, the bitmap has exactly the pieces received in full; it ends at the end marker whenever the stream has one, nothing fails and there are calls enough |
| `Transmission.PiecesGrow` | examples/windows/pmandel_vis/sock.cpp:338-372 | the pieces in a beginning of a stream are the first of those in the whole |
| `BrokenWrites.StoppedPieceIff` | examples/pmandel.c:1321-1322 | after a write that has stopped in the middle, pieces written before are read as they are, and this one exactly when what comes next is what was missing |
| `BrokenWrites.MisreadIff` | examples/pmandel.c:1321-1322 | it is misread exactly when enough comes to make a piece, but not what was missing |
| `BrokenWrites.PixelsMisreadIff` | examples/pmandel.c:1322 | once the header is through, enough is as many bytes as are missing |
| `BrokenWrites.NothingMoreNothingMisread` | examples/windows/pmandel_vis/sock.cpp:338-352 | when nothing comes any more nothing is misread |
| `EndToEnd.StreamCarriesImageIff` | examples/pmandel.c:1318-1324 | after any run of the dispatcher the reader gets what was drawn exactly when one dimension is at least forty |
| `EndToEnd.SmallImageOccurs` | examples/pmandel.c:416-459 | with both dimensions below forty there is a run whose finished image is not read back |
| `EndToEnd.SendAndShow` | examples/pmandel.c:1318-1324 | root, connection and visualizer together: the bitmap is drawn from the pieces in what was sent; when nothing moves after a failure from the first pieces written, and from all before an all-zero header at the end, which comes when nothing fails and there are calls enough |
| `EndToEnd.ShowImage` | examples/windows/pmandel_vis/sock.cpp:329-373 | after any run of the dispatcher the visualizer then has drawn every piece exactly when one dimension is at least forty, and shows the picture |
| `FenceRounds.RunInv` | examples/pmandel_fence.c:435-532 | after every run root and workers are in the same stretch between fences, windows hold what the root put, results land where they should |
| `FenceRounds.StepInv` | examples/pmandel_fence.c:555-670 | every step, landing puts included, keeps that |
| `FenceResults.FencesPerImage` | examples/pmandel_fence.c:435-532 | when the root is done everyone has passed three fences for each round and two more |
| `FenceResults.TileHasTurn` | examples/pmandel_fence.c:444-477 | every tile has a round and a worker |
| `FenceResults.TurnIsUnique` | examples/pmandel_fence.c:444-477 | and only one |
| `FenceResults.HandOutIsTurn` | examples/pmandel_fence.c:444-477 | the item put is the one whose turn it is: tiles in order, fillers after the last |
| `FenceResults.WorkerReadsClosedPut` | examples/pmandel_fence.c:573-586 | a worker reads its window only after the fence that closes the put to it, and finds the item of this round or the stop message |
| `FenceResults.RootReadsClosedPuts` | examples/pmandel_fence.c:485-508 | the root collects only when no put is under way and the results of the round have landed |
| `FenceResults.TilesSentInOrder` | examples/pmandel_fence.c:493-508 | the visualizer gets the tiles in the order of the root's arrays, each once, all by the end |
| `FenceResults.NoDeadlock` | examples/pmandel_fence.c:435-670 | the fences always match: no state is stuck before all have left |
| `FenceResults.EveryStepDescends` | examples/pmandel_fence.c:435-670 | every step lowers a measure |
| `FenceResults.RunsAreFinite` | examples/pmandel_fence.c:435-670 | a run of an image is no longer than a bound set by tiles and workers |
| `FenceResults.RunsEndWell` | examples/pmandel_fence.c:435-670 | every run can go on until everyone has left |
| `FencePixels.PutPixels` | examples/pmandel_fence.c:592-649 | the loops with one put for each pixel paint the piece with the width as stride |
| `FencePixels.VectorPutIsPixelPuts` | examples/pmandel_fence.c:581-653 | one put through a vector datatype writes the cells and values of all the small puts |
| `FencePixels.VectorFitsIff` | examples/pmandel_fence.c:581-653 | and stays in the window exactly when they do |
| `FencePixels.FillerIsOutside` | examples/pmandel_fence.c:457-464 | what is computed for a filler is put at minus the width minus one |
| `FencePixels.FillerPutIff` | examples/pmandel_fence.c:457-477 | such a put is made exactly when the workers do not divide the tiles |
| `FencePixels.FillerPutOccurs` | examples/pmandel_fence.c:444-477 | when it does not, there is a run in which that happens |
| `FencePixels.CollectedTileShows` | examples/pmandel_fence.c:493-508 | the rows the root sends for a tile hold the picture already |
| `FencePixels.FinishedImage` | examples/pmandel_fence.c:435-532 | at the end the array is the picture where tiles reach, for any shape, and untouched elsewhere |
| `FencePixels.ShuffledTilesDisjoint` | examples/pmandel_fence.c:390-419 | shuffled tiles of an image at least twenty pixels each way share no pixel |
| `FencePixels.EpochPutsDisjoint` | examples/pmandel_fence.c:592-653 | so puts of different workers in one epoch never touch the same cell |
| `CountingFence.RunInv` | doc/notes/rma/dm.c:42-197 | after every run of any number of processes the counters agree with the calls made, handled and under way |
| `CountingFence.CallsAreConserved` | doc/notes/rma/dm.c:42-67 | what all sources count for a target is what it has processed plus what is under way to it |
| `CountingFence.FenceClosesEpoch` | doc/notes/rma/dm.c:42-67 | with the documented guard, once a process has returned, every handler call of the epoch has run and every request and flag is complete, at every process |
| `CountingFence.NoCallCrossesEpochs` | doc/notes/rma/dm.c:57-65 | the closing barrier keeps every handler call in the counters of its own epoch |
| `FenceMatching.RunMatch` | doc/notes/rma/dm.c:82-197 | after every run tags number the gets and large puts of each origin, data has come over the operation's own channel in its own epoch, and sends taken equal receives filled on every channel |
| `FenceMatching.TagsDiffer` | doc/notes/rma/dm.txt:95-96 | two gets or large puts of one origin have different tags in an epoch |
| `FenceMatching.ChannelMates` | doc/notes/rma/dm.txt:95-96 | only a get and a large put back and forth can share processes and tag |
| `FenceMatching.MatchedInItsEpoch` | doc/notes/rma/dm.c:57-65 | no message is matched with a receive of another epoch |
| `FenceProgress.NoDeadlock` | doc/notes/rma/dm.c:46-65 | while a process is in a fence, exchange and barrier included, some step inside a fence is possible or a process that has not called this one may call it |
| `FenceProgress.EveryStepDescends` | doc/notes/rma/dm.c:46-65 | every step but calling an operation or a fence lowers a measure |
| `FenceProgress.PassFence` | doc/notes/rma/dm.c:42-67 | whatever has been called, all processes can go through their fence together |
| `FenceTags.CollisionSwaps` | doc/notes/rma/dm.c:82-192 | for every plan of calls in which a get has the tag of a large put from its target back, in any epoch, there is a run past the fence in which the two have each other's data |
| `FenceTags.NoCollisionNoSwap` | doc/notes/rma/dm.c:82-192 | otherwise every operation has its effect, in every run |
| `FenceTags.EffectIsSureIff` | doc/notes/rma/dm.txt:95-96 | for all plans and epochs: every operation is sure to have had its effect when the fence returns exactly when no two tags meet |
| `FenceTags.GetAgainstPut` | doc/notes/rma/dm.c:82-192 | the smallest such plan: a get one way and a large put the other |
| `PrintedGuard.PrintedGuardReturnsEarlyIff` | doc/notes/rma/dm.c:50-65 | from the loop of a fence of any epoch: as printed a process may return, through the barrier, with a call, request or flag of the epoch open there exactly when one is open now |
| `PrintedGuard.FirstFenceReturnsEarlyIff` | doc/notes/rma/dm.c:50-65 | in the first epoch that is when the documented guard would wait |
| `PrintedGuard.PrintedGuardWaitsIff` | doc/notes/rma/dm.c:50-52 | in the first epoch a process is kept in the printed loop exactly while a call, a request and a flag are open there, all three at once |
| `PrintedGuard.PrintedGuardLosesEffectIff` | doc/notes/rma/dm.c:50-65 | and with an operation at either end of which it stands without effect exactly when there is one now |
| `PrintedGuard.PrintedIsSureIff` | doc/notes/rma/dm.c:50-65 | for all plans and epochs: as printed the fence is sure to have had all effects at a process exactly when the plan has no call between it and another |
| `CountingFence.DocumentedIsPrinted` | doc/notes/rma/dm.c:50-52 | every run with the documented guard is one with the printed guard |
| `PrintedGuard.PrintedGuardFails` | doc/notes/rma/dm.c:50-65 | for each epoch and kind of operation a run of two processes in which the target has returned and the operation has had no effect |
| `PassiveAccumulate.RunInv` | doc/notes/rma/passive_acc.c:42-71 | after every run the locks and the two sums agree with what each rank has added |
| `PassiveAccumulate.ExclusiveLockSeesWholeAdditions` | doc/notes/rma/passive_acc.c:44-48 | under the exclusive lock no rank is half way and both elements count the same ranks |
| `PassiveAccumulate.PollingLoopIsRight` | doc/notes/rma/passive_acc.c:42-53 | when the loop ends the first element is np-1, the second np(np-1)/2, and nothing can change them any more |
| `PassiveAccumulate.NoDeadlock` | doc/notes/rma/passive_acc.c:42-69 | until then some step is possible |
| `PassiveAccumulate.RanksDescend` | doc/notes/rma/passive_acc.c:58-69 | no step adds to what the ranks have to do, and each of theirs takes one from it |
| `PassiveAccumulate.LoopEndsInSix` | doc/notes/rma/passive_acc.c:42-50 | once every other rank has unlocked, six steps of rank 0 end the loop |
| `PassiveAccumulate.RunsEndWell` | doc/notes/rma/passive_acc.c:42-69 | every run can go on until the loop has ended with both elements complete |
| `EventBarrier.RunInv` | examples/windows/pmandel_vis/pman_visView.cpp:255-273 | over any number of rounds each event is set exactly when it has been set once more than reset |
| `EventBarrier.BarrierHolds` | examples/windows/pmandel_vis/pman_visView.cpp:255-273 | neither party returns from its n-th call before the other has entered its n-th |
| `EventBarrier.RoundsStayTogether` | examples/windows/pmandel_vis/pman_visView.cpp:255-273 | the parties are never more than one round apart |
| `EventBarrier.NoSignalIsLost` | examples/windows/pmandel_vis/pman_visView.cpp:255-273 | an event is never set twice without a reset, nor reset after a later set |
| `EventBarrier.NoDeadlock` | examples/windows/pmandel_vis/pman_visView.cpp:255-273 | with both parties in a call one can go on |
| `EventBarrier.FinishedPartnerReleases` | examples/windows/pmandel_vis/pman_visView.cpp:255-273 | once the partner has finished the round nobody waits in it |
| `EventBarrier.RoundsComplete` | examples/windows/pmandel_vis/pman_visView.cpp:255-273 | every run can go on until both parties have returned from any number of calls |
| `CriticalSection.CallFits` | src/include/mpiimplthread.h:133-152 | the flattened code of any tree of nested calls is properly bracketed and ends at the depth it began |
| `CriticalSection.CallIsAllThere` | src/include/mpiimplthread.h:133-152 | and has one access for every piece of work on shared data in the tree, one frame for every call and as many increments as decrements |
| `CriticalSection.RunInv` | src/include/mpiimplthread.h:133-152 | in every interleaving each nest count is half the bracket depth, and the mutex is held by the thread with a frame open |
| `CriticalSection.HeldExactlyInside` | src/include/mpiimplthread.h:133-152 | a thread holds the mutex exactly while it is inside an outermost routine |
| `CriticalSection.AccessIsExclusive` | src/include/mpiimplthread.h:133-152 | shared data is touched by the holder only |
| `CriticalSection.LockedAndUnlockedInTurn` | src/include/mpiimplthread.h:137-151 | the holder never locks again, nobody else unlocks |
| `CriticalSection.CallRestores` | src/include/mpiimpl.h:2214-2219 | a call leaves nest count and mutex as it found them |
| `CriticalSection.NoDeadlock` | src/include/mpiimplthread.h:133-152 | while a thread has anything left some thread can go on |
| `CriticalSection.AllReleased` | src/include/mpiimplthread.h:143-152 | at the end the mutex is free and all counts are zero |
| `CriticalSection.RunsEndWell` | src/include/mpiimplthread.h:133-152 | every run can go on until all calls have returned, in as many steps as are left |
| `FirstUse.InitialisedBeforePassing` | src/include/mpiimplthread.h:211-224 | with either macro nobody passes before an initialisation is complete |
| `FirstUse.RunsAtMost` | src/include/mpiimplthread.h:211-224 | the block form runs at most once, the statement form at most once for each thread |
| `FirstUse.EachRunsInTurn` | src/include/mpiimplthread.h:212-217 | the statement form can run once for every thread |
| `FirstUse.OnceIff` | src/include/mpiimplthread.h:212-224 | it is sure to run at most once exactly for the block form or a single thread |
| `FirstUse.NoDeadlock` | src/mpi/datatype/type_get_name.c:115-172 | nobody waits for ever for the mutex |
| `FirstUse.EveryThreadCanPass` | src/include/mpiimplthread.h:211-224 | from every state every thread can get past the macro, within ten steps |
| `RefCount.CountIsOutstanding` | src/include/mpiimpl.h:467-486 | the count is always the number of references outstanding, taken by a holder for itself or on behalf of another |
| `RefCount.OneLastRelease` | src/include/mpiimpl.h:480-486 | one release returns zero exactly when nothing is held, and no update can follow it |
| `RefCount.FreedExactlyOnce` | src/include/mpiimpl.h:452-457 | deciding on the returned value frees neither early nor twice, and frees in the end |
| `RefCount.TwoHoldersFreeTwice` | src/include/mpiimpl.h:445-453 | reading the count again, which the text forbids, two holders can free twice, whatever references there are |
| `RefCount.CountReadAgainIff` | src/include/mpiimpl.h:445-453 | it never frees twice exactly when there is a single holder, whoever has the references at first |
| `CoverageSpec.CompareFacts` | src/binding/cxx/mpicovsimple.cxx:39-48 | the comparison is zero only for equal keys and changes sign when they are exchanged |
| `CoverageSpec.LessTransitive` | src/binding/cxx/mpicovsimple.cxx:39-48 | the order of keys, by name and then argument count, is transitive |
| `CoverageOrder.StrCmpIff` | src/binding/cxx/mpicovsimple.cxx:39-43 | of two names that one comes first that ends, or has the smaller character, where they first differ |
| `CoverageOrder.LessIff` | src/binding/cxx/mpicovsimple.cxx:39-48 | a key comes first by its name, or by fewer arguments when the names are the same |
| `CoverageSpec.PresentIff` | src/binding/cxx/mpicovsimple.cxx:37-58 | in a sorted list a key is found at its place exactly when some record has it, and only one has |
| `CoverageSpec.WithKeySorted` | src/binding/cxx/mpicovsimple.cxx:60-89 | after a search the list is sorted and has the key |
| `CoverageSpec.FindAfterChange` | src/binding/cxx/mpicovsimple.cxx:92-113 | changing a key's record changes what the list says of that key only |
| `CoverageCalls.CallsAreCounted` | src/binding/cxx/mpicovsimple.cxx:92-113 | after any calls of `Add` and `AddEnd` the count of a key is the old one and one for each `Add` of it, the list has the keys it had and those named, and records of other keys are as they were |
| `CoverageCalls.SourceIsKept` | src/binding/cxx/mpicovsimple.cxx:98-102 | a key that has a source keeps it and its first line |
| `CoverageCalls.FirstAddIsNoted` | src/binding/cxx/mpicovsimple.cxx:98-102 | otherwise they are those of the first `Add` of the key |
| `CoverageCalls.EndIsKept` | src/binding/cxx/mpicovsimple.cxx:106-113 | a last line that is not negative is kept, and a negative one stays so until an `AddEnd` gives another |
| `CoverageCalls.FirstEndIsNoted` | src/binding/cxx/mpicovsimple.cxx:106-113 | then it is that of the first `AddEnd` of the key that is not negative |
| `CoverageSpec.MergeAddsCounts` | src/binding/cxx/mpicovsimple.cxx:147-160 | merging keeps the list sorted, adds the file's counts of every key to the list's, and brings in no other key |
| `CoverageOrder.MergeOrderIrrelevant` | src/binding/cxx/mpicovsimple.cxx:147-160 | folding in any number of files in any order gives the same counts and keys |
| `CoverageOrder.OriginAfterMerge` | src/binding/cxx/mpicovsimple.cxx:152-159 | the source file and lines of a key stay what they were, or are those of the first line that has it |
| `CoverageOrder.SameListIff` | src/binding/cxx/mpicovsimple.cxx:147-160 | two orders of the same files give the same list exactly when every key without a source has its first line from the same place |
| `CoverageSpec.WrittenRestores` | src/binding/cxx/mpicovsimple.cxx:147-183 | merging a written file into an empty list gives the list |
| `CoverageSpec.ReadableStops` | src/binding/cxx/mpicovsimple.cxx:147-151 | reading stops at the first line whose count is the marker |
| `CoverageSpec.ReloadIff` | src/binding/cxx/mpicovsimple.cxx:147-183 | writing and reloading gives the same list exactly when no count is -1 |
| `CoverageText.TextReadsBack` | src/binding/cxx/mpicovsimple.cxx:147-183 | the text of a file reads back as its lines when names and sources are words |
| `CoverageText.TextReloadIff` | src/binding/cxx/mpicovsimple.cxx:147-183 | the same as `ReloadIff` for the text |
| `CoverageText.FieldsOfLine` | src/binding/cxx/mpicovsimple.cxx:177-183 | the six fields of a line in their order, with tabs between them |
| `Coverage.Coverage.Start` | src/binding/cxx/mpicovsimple.cxx:26-34 | starting at the cursor skips only records before the key |
| `Coverage.Coverage.Walk` | src/binding/cxx/mpicovsimple.cxx:37-58 | the search loop ends at the record with the key, or just before where it belongs |
| `Coverage.Coverage.Search` | src/binding/cxx/mpicovsimple.cxx:25-58 | the result depends on the list only, not on where the cursor stood |
| `Coverage.Coverage.LinkAfter` | src/binding/cxx/mpicovsimple.cxx:69-85 | the link updates splice the record in, whether first, last or between |
| `Coverage.Coverage.SplicedIsChained` | src/binding/cxx/mpicovsimple.cxx:69-85 | forward and backward links of the longer list are inverse again |
| `Coverage.Coverage.InsertAfter` | src/binding/cxx/mpicovsimple.cxx:60-88 | a blank record is inserted and nothing else changes |
| `Coverage.Coverage.FindOrInsert` | src/binding/cxx/mpicovsimple.cxx:23-89 | the list stays sorted and linked both ways, the record returned is the one with the key, all others are the same objects with the same values in the same order |
| `Coverage.Coverage.Add` | src/binding/cxx/mpicovsimple.cxx:92-104 | the count of the key goes up by one; file and line are set the first time |
| `Coverage.Coverage.AddEnd` | src/binding/cxx/mpicovsimple.cxx:106-113 | the last line is set if it was not |
| `Coverage.Coverage.ReadIn` | src/binding/cxx/mpicovsimple.cxx:147-160 | the reading loop merges the readable lines |
| `Coverage.Coverage.WriteOut` | src/binding/cxx/mpicovsimple.cxx:177-183 | the writing loop writes the records in list order |
| `Coverage.Coverage.FileMerge` | src/binding/cxx/mpicovsimple.cxx:119-192 | the file becomes the merge of the list and itself, sorted and without duplicates |
| `Decimal.AtoiInvertsShow` | archive/mpiexec/mpiexec_args.c:287 | `atoi` reads a decimal number back |
| `Decimal.AtoiReadsNumber` | archive/mpiexec/mpiexec_args.c:287 | also after white space and a sign, and whatever follows the digits |
| `Decimal.AtoiOfOther` | archive/mpiexec/mpiexec_args.c:287 | where no digit follows the value is zero |
| `MpiexecArgs.StripArgs` | archive/mpiexec/mpiexec_args.c:80-95 | the arguments shift left by n with the null behind them; it fails exactly when there are fewer, and touches nothing outside its block |
| `MpiexecArgs.Tokenize` | archive/mpiexec/mpiexec_args.c:108-121 | the tokens of a line fill the vector; from 1023 on the last is cut off while the count goes on |
| `MpiexecArgs.GetArgcvFromFile` | archive/mpiexec/mpiexec_args.c:97-132 | the next line that holds anything, if there is one |
| `MpiexecArgs.TakeOption` | archive/mpiexec/mpiexec_args.c:264-357 | one option, its dash trimmed in place, does what the meaning of the command line says |
| `MpiexecArgs.ParseOptions` | archive/mpiexec/mpiexec_args.c:259-359 | the option loop ends, stripping never fails in it, and it leaves executable and arguments |
| `MpiexecArgs.ParseBlockAt` | archive/mpiexec/mpiexec_args.c:259-416 | one block gives its command or fails |
| `MpiexecArgs.CheckForFile` | archive/mpiexec/mpiexec_args.c:214-247 | the check for `-configfile` and its three errors |
| `MpiexecArgs.ParseFileFrom` | archive/mpiexec/mpiexec_args.c:477-482 | the lines of an open file, one after the other |
| `MpiexecArgs.ParseEntryAt` | archive/mpiexec/mpiexec_args.c:206-482 | a block, or the file it names |
| `MpiexecArgs.CutBlock` | archive/mpiexec/mpiexec_args.c:191-203 | a block ends at the next colon, which becomes a null; what follows is unchanged |
| `MpiexecArgs.ParseArguments` | archive/mpiexec/mpiexec_args.c:134-521 | for every command line and set of files the parser returns what the meaning says |
| `MpiexecOptions.OptionsIff` | archive/mpiexec/mpiexec_args.c:259-359 | the option loop accepts a block exactly when each option is fine alone, no count follows a count, no host a nonempty host; the last of each kind decides |
| `MpiexecOptions.BlockParsesIff` | archive/mpiexec/mpiexec_args.c:259-416 | a block is parsed exactly when moreover there is a count and an executable |
| `MpiexecOptions.FirstFailureDecides` | archive/mpiexec/mpiexec_args.c:189-488 | a command line is parsed exactly when every block is, and otherwise the first that is not decides |
| `MpiexecOutcomes.BlockOutcome` | archive/mpiexec/mpiexec_args.c:259-416 | a block ends with the list of options exactly when its first option that is not good is `help` or begins with a question mark, and fails in all other cases in which it is not parsed |
| `MpiexecOutcomes.CommandLineOutcome` | archive/mpiexec/mpiexec_args.c:189-488 | a command line is parsed exactly when every block and every line of every file it names is, and ends with the list of options exactly when the first that is not calls for it |
| `MpiexecOutcomes.FirstTextDecides` | archive/mpiexec/mpiexec_args.c:189-488 | the first that is not parsed decides; a file that is not there, or has nothing in it, or is asked for in a file, fails |
| `MpiexecResults.JoinedBlocksIff` | archive/mpiexec/mpiexec_args.c:191-203 | blocks joined by colons are found again, with or without a colon at the end, unless the last of several is empty and has none |
| `MpiexecResults.EntrySound` | archive/mpiexec/mpiexec_args.c:369-425 | a block gives one command, or one for every line of its file, each with at least one process and an executable that is no option |
| `MpiexecResults.CommandLineRoundTripIff` | archive/mpiexec/mpiexec_args.c:134-521 | printing commands and parsing gives them back exactly when each is of that kind and no word begins with a colon |
| `MpiexecResults.GivenBackNoSeparator` | archive/mpiexec/mpiexec_args.c:191-203 | joined lines that each give their own command have no word that begins with a colon |
| `MpiexecMeant.ThreeDashes` | archive/mpiexec/mpiexec_args.c:217-272 | a first word with three dashes is dropped on the first line of a file, and on the command line is the option it names behind them, if known |
| `MpiexecMeant.FirstWordIff` | archive/mpiexec/mpiexec_args.c:217-272 | a first word means the same in both places, whatever follows, exactly when trimming it twice is trimming it once or names nothing known |
| `MpiexecMeant.FileEntry` | archive/mpiexec/mpiexec_args.c:214-256 | the words after the file name are ignored |
| `MpiexecMeant.FileIsItsLines` | archive/mpiexec/mpiexec_args.c:214-482 | a configuration file, parsed or not, means the same as its lines as blocks of the command line when no line asks for a file, no word begins with a colon and the first word is settled |
| `MpiexecMeant.FileFirstWordIff` | archive/mpiexec/mpiexec_args.c:214-482 | for any first word: all files that begin with it, otherwise so, stand for their lines exactly when it is settled |
| `MpiexecMeant.ParsedFileIsItsLinesIff` | archive/mpiexec/mpiexec_args.c:191-203 | a file that is parsed stands for its lines exactly when no word of it begins with a colon |
| `MpiexecMeant.AskingFileFails` | archive/mpiexec/mpiexec_args.c:214-247 | a file of which a line asks for a file is never parsed |
| `MpiexecMeant.WordsOfLine` | archive/mpiexec/mpiexec_args.c:108-121 | words with spaces between them are found again |
| `MpiexecLines.WordsOfAnyLine` | archive/mpiexec/mpiexec_args.c:108-121 | every line is gaps of blanks, carriage returns and line feeds with words between them, and these are its tokens |
| `MpiexecLines.TwoDashesAreOne` | archive/mpiexec/mpiexec_args.c:262-272 | an option means the same with two dashes as with one |
| `MpiexecMeant.UnknownOptionIff` | archive/mpiexec/mpiexec_args.c:342-358 | options in any order are parsed as they are meant exactly when they make sense together and none is unknown; otherwise the value of the first unknown one is taken for the executable |
| `ExamplePoint.ParseString` | examples/windows/pmandel_vis_net/Form.cs:1050-1094 | the loops find the first token and what follows it |
| `ExamplePoint.ParseStrings` | examples/windows/pmandel_vis_net/Form.cs:1025-1049 | the loop ends on every input and finds all tokens; null for the empty string |
| `ExamplePoint.ExamplePoint.ReadOne` | examples/windows/pmandel_vis_net/Form.cs:737-847 | one pass of the reading loop |
| `ExamplePoint.ExamplePoint.Normalize` | examples/windows/pmandel_vis_net/Form.cs:859-884 | bounds in order and cut to the square, a bad limit replaced |
| `ExamplePoint.ExamplePoint.FromString` | examples/windows/pmandel_vis_net/Form.cs:711-888 | the point, the result and any exception are what the text means |
| `ExamplePointResults.TokensOfWords` | examples/windows/pmandel_vis_net/Form.cs:1025-1094 | splitting finds any list of quoted and plain words again, however many spaces are between them |
| `ExamplePointResults.NameTokens` | examples/windows/pmandel_vis_net/Form.cs:1063-1074 | a name ends at its first quote and the rest of it is read as more tokens |
| `ExamplePointResults.RoundTripIff` | examples/windows/pmandel_vis_net/Form.cs:711-901 | reading a printed point restores it exactly when it lies in order in the square, has a limit from 1 to 10000 and no quote in its name |
| `ExamplePointResults.CutIsInSquareIff` | examples/windows/pmandel_vis_net/Form.cs:859-880 | cutting leaves an interval of the square exactly when the bounds met it |
| `ExamplePointOptions.ItemsMean` | examples/windows/pmandel_vis_net/Form.cs:737-857 | bounds, corners, circle, limit and name in any order, with any other tokens between them: the last of each kind decides, corners count as the first and the second |
| `ExamplePointOptions.BoundsAreCorners` | examples/windows/pmandel_vis_net/Form.cs:771-806 | four single bounds in any order make the same point as two corners, whatever else is said |
| `ExamplePointOptions.CircleIsSquare` | examples/windows/pmandel_vis_net/Form.cs:807-857 | a circle stands for the square around it whatever corners and bounds are given; with radius zero its options might as well not be there |
| `ExamplePointText.TokensOfAnyText` | examples/windows/pmandel_vis_net/Form.cs:1025-1094 | every text is quoted and plain words and at most one quote that is never closed, and its tokens are these and what is behind that quote |
| `ExamplePointText.TextMeans` | examples/windows/pmandel_vis_net/Form.cs:711-888 | for every text: what is said last of each bound, or by the circle, is put in order and cut at -2 and 2; the limit is the last one said if it lies from 1 to 10000 and otherwise 100; an exception leaves what was said before, as it is |
| `ExamplePointText.ThrowsIff` | examples/windows/pmandel_vis_net/Form.cs:737-857 | reading throws exactly when a number of a range or option cannot be read |

## Left out

- Sockets, MPI transport, process spawning, files and consoles: they are channels, byte streams, puts that land at some time, lists of lines, or results of calls given as parameters.
- `MPI_Bcast` of the limits and `MPI_Comm_disconnect`: a job's limits are part of the configuration, and workers take up the next image when the root has; the end of the image loop is not modelled.
- `pmandel.c` does not check that there are no more workers than tiles; the dispatcher is modelled for at least one worker and no more than tiles, which `check_mand_params` ensures in `pmandel_spawn.c`.
- The two alternate equations: the dispatcher, the fences and the image results hold for any function from pixels to integers; `MandelbrotImage` has the Mandelbrot and Julia equation.
- Floating-point rounding, in `Escape` and `ExamplePoint`: reals are used, and the text of a number is any that reads back and has no space, comma, parenthesis or quote.
- `EndToEnd.SendAndShow`: writing comes before reading; what is read does not depend on how much more has been written by then, so this stands for any interleaving in which the counts of `recv` are what they are, and a closed connection is one with no more bytes.
- Fences of `pmandel_fence.c` for several images: one image is modelled, from its first fence to its last; what the windows hold at first is arbitrary.
- `FencePixels.FinishedImage`: puts of fillers, which are outside the window, are given no effect on it.
- `CountingFence.FenceClosesEpoch`: operations of a process on itself, which are done at once, accumulate, which the notes leave unfinished, and fences with assertions other than zero are not modelled; the ready send of the get handler is a plain send, although in a plan in which tags meet the receive it counts on may already have been filled by the other message, which makes a ready send an error; a large put's handler call and its send are one step.
- `PassiveAccumulate.PollingLoopIsRight`: the window is two integers, though line 39 of the source exposes only one.
- `CriticalSection.RunInv`: the optional debug record of where nest counts change, and run-time switching of threads, are not modelled.
- `FirstUse.RunsAtMost`: an initialisation that fails and skips the clearing of the flag is not modelled.
- `Coverage.Coverage.FileMerge`: lines are given already split into fields, and records must all have a source file by the end, since a null one cannot be written; `CoverageText` has the text of files this program writes, not malformed ones, and not the 1024-character buffers of the reader. Renaming the temporary file is left out.
- The C integers of `argcount` and of the counts are unbounded here, so overflow of their difference or sum is not modelled.
- `MpiexecArgs.ParseArguments`: strings are values, so a dash is trimmed by replacing a token and not by moving its characters; the fixed buffers of `strncpy` and the 8192 characters of a line are not modelled, nor is `HAVE_MPID_PARSE_OPTION`; the linked list of commands is a sequence; files are a map from names to lines, each with fewer than 1023 tokens, beyond which the source reads past its vector.
- `MpiexecMeant.UnknownOptionIff`: the value of an unknown option is a word that does not begin with a dash; one that does is an option of its own.
- Running out of memory, handle allocation, error codes, collectives, the datatype engine, process management and log files.
- `pmandel_service.c`, `pmandel_spaserv.c`, `complex_points_to_image`, `divide_complex` and the like: the same functions again, or unused.
- `mpiu_monitors.h`, build probes, option parsing of the Mandelbrot programs, colours and windows.
