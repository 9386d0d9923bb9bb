# Icecast: models and proofs

This project models the parts of Icecast that handle an unbounded stream or an unbounded run of events, and proves what
they keep. Every part is written the way the C code works: fields updated in place, buffers as arrays, linked lists
through explicit memory; and each such call is proved to do what a function on values says, about which the theorems are
then proved.

* **EBML/WebM splitter** (`Ebml*.dfy`). `EbmlVarInt` holds variable-length integers (section 4 of RFC 8794),
  `EbmlOnePass` a parser that sees the whole stream at once, `EbmlElements` and `EbmlVerdicts` what its records mean in
  terms of the stream alone, `EbmlAccepted` which streams it rejects, `EbmlStream` the buffered parser as functions on
  its state, `EbmlInvariants` what each call keeps, `EbmlRuns` the theorems about all runs, `EbmlWitnesses` two streams
  on which the splitter misbehaves, `EbmlSmallStream` one small enough to follow by hand, `EbmlParser` the parser in
  place and `EbmlPlugin` the loop that feeds it.
* **In-flight queue** (`Heap`, `QueueState`, `QueueSteps`, `Turns`, `QueueListeners`, `Source`, `Moves`, `Server`).
  Memory is a map from addresses to counted buffers from which freeing takes an address away, so that every use of a
  pointer is proved to be a use of live memory. There is one memory for all mounts, and of each mount is known which
  part of it is its own. `Turns` is what sending makes of one listener, `Source` a mount with its loop, `Moves` the move
  of listeners to another mount and the clearing of a mount, `Server` all mounts together.
* **ICY metadata** (`Icy*.dfy`). The format, the title block, the source side that strips metadata in place, the
  listener side that inserts it under partial writes, and the two together.
* **Authentication** (`AuthChain`, `AuthServer`). The verdict as the configuration defines it, and the chain of
  callbacks, queues and reference counts that comes to it.
* **MD5** (`Md5`), **statistics** (`Stats`, `StatsServer`), **relay reconciliation** (`Relays`), **Ogg header list**
  (`OggHeaders`), **base64 and URL escaping** (`Codecs`).

Locks are atomic steps. What a connection delivers is arbitrary, and so is what one accepts of an ICY stream. What an
authenticator answers is a parameter, and so is what comes to which listener of a mount in which turn: that its time is
over, that its headers cannot be built or how long they are, how much there is of the intro file, and how much its
connection accepts or that it breaks. Fields marked as history record what has happened and are used for statements
only.

## What the models show about the code

* The result of `ebml_wrote` is ignored when nothing was read (`src/format_ebml.c:322`), so the source goes on after a
  refusal. But a refusal leaves the input buffer unshifted, and bytes moved before it are taken for input once more.
  What comes out is what was written exactly if each write refused found the fault in the first thing it looked at
  (`BytesConserved`, `RefusedAtOnce`, `ConservedIff`); without a -1 nothing is lost or doubled. From thirteen bytes
  written once, a source that is asked while there is nothing to read hands out the same Cluster any number of times
  (`ClusterRepeats`).
* A stream that begins with a Cluster can never be read: its header has no bytes, which counts as not ready yet
  (`ClusterFirstIsStuck`, with a run of five bytes in `StuckAtOnce`). `Progress` therefore needs some element before the
  first Cluster.
* `ebml_read` would repeat the start of the header if it were asked for in parts; two parts give the header exactly when
  it happens to repeat itself (`ShortHeaderReads`). The caller always asks for all of it.
* The "queue state is unexpected" branch is unreachable (`QueueSteps.UnreferencedHead`).
* As long as metadata does not change while it is half sent, a listener's stream can be read back (`Play`, `PlayBack`).
  If it does, audio and metadata stay in step exactly when the length stays the same (`InStepIff`, with an example where
  it does not in `ChangedMidway`).
* A listener keeps the address of the metadata it was last sent, and no reference to it. New metadata that happens to be
  made at that address is taken for the same and not sent; the title shown is then right exactly if the text is the same
  (`ShownIff`). `TitleShown` and the titles in `PlayBack` rest on different metadata having different addresses.
* The text of an inline URL is printed on beyond its own end, and closed a second time, unless the length worked out
  leaves no room for that: it is a multiple of 16 and counts no artist without a title (`InlineUrlOverrun`, with an
  example in `UrlPrintedTwice`).
* An artist without a title is counted in the length of the metadata block and not printed (`ShortestBlock`).
* A client is forgotten when there is no global stack of authenticators and no stage before has a final result.
  `auth_stack_get` unlocks where it should lock (`src/auth.c:739`); locks being atomic steps, this does not show.
* A client turned away because too many wait for an authenticator keeps its reference to the stack node: it is not
  released on that path (`src/auth.c:379-384`), nor when the client is destroyed (`src/client.c:130-178`). Each such
  client leaves the node one reference too many (`StackRefs`, `AllGivenBack`).
* ADD and SUB of a statistic that exists are passed on with the amount and not with the new value, so a client stays in
  step exactly when the two texts agree (`StaysInStep`).
* A relay is reused although its user name or password differs: they are not compared. A relay of the new list has those
  of its settings exactly if it was made for them or had them before (`CredentialsCarried`, with an example in
  `OldPasswordKept`).
* Base64 of a single left-over byte contains the high bits of whatever lies behind it in memory (`BeyondShows`);
  decoding is not affected (`Base64RoundTrip`).

## Model

| member | source | states |
|---|---|---|
| `EbmlVarInt.VarIntRoundTrip` | src/format_ebml.c:898-955 | Parsing an encoded integer gives it back, whatever follows; the greatest value of a length means unknown size |
| `EbmlVarInt.VarIntOnlyEncodings` | src/format_ebml.c:898-955 | Nothing but encodings is accepted |
| `EbmlVarInt.VarIntStable` | src/format_ebml.c:898-955 | An answer other than "need more" never changes when bytes are appended |
| `EbmlVarInt.TwoInWords` | src/format_ebml.c:898-955 | The number two in one, two, three, four and eight bytes, and sizes that are unknown, byte by byte |
| `EbmlVarInt.SizedIntTwosComplement` | src/format_ebml.c:967-998 | A sized signed integer has its two's complement value |
| `EbmlVarInt.ParseVarInt` | src/format_ebml.c:898-955 | The marker search and the shifting loop compute the integer, or say that data is missing or wrong |
| `EbmlVarInt.ParseSizedInt` | src/format_ebml.c:967-998 | The loop computes the fixed-size integer, or says that data is missing |
| `EbmlOnePass.ExamineStable` | src/format_ebml.c:624-763 | What the parser decides about an element never changes when bytes are appended |
| `EbmlOnePass.RunExtend` | src/format_ebml.c:599-839 | Parsing a longer stream starts like parsing the shorter one |
| `EbmlOnePass.RunExtends` | src/format_ebml.c:599-839 | Records only grow; a verdict once reached stays |
| `EbmlElements.OnePassMeaning` | src/format_ebml.c:599-839 | The recorded elements tile the stream with the sizes their tags give, and the recognised Clusters are exactly the elements with that identifier |
| `EbmlElements.NextElement` | src/format_ebml.c:644-687 | Behind an element that begins with the identifier of a Segment, Tracks, TrackEntry or Cluster, or has unknown size, the next one begins right behind its identifier and size; behind any other as many bytes further as its size says |
| `EbmlVerdicts.VerdictMeaning` | src/format_ebml.c:668-745 | The track watched is the first in the stream with a TrackNumber and an odd TrackType; the verdict on a Cluster is the keyframe flag of the first SimpleBlock of that track before the next Cluster, and open if there is none |
| `EbmlVerdicts.VerdictUnique` | src/format_ebml.c:668-706 | Stream and elements leave no choice of verdict |
| `EbmlVerdicts.InsideInWords` | src/format_ebml.c:668-745 | Where in a TrackNumber, a TrackType and a SimpleBlock the number, the video bit, the track and the keyframe bit are, byte by byte |
| `EbmlAccepted.RejectedIff` | src/format_ebml.c:599-839 | A stream is rejected exactly if it can be read as elements behind which comes no identifier or size, a block without a track number in a Cluster whose verdict is open, a track number or type of other than one to eight bytes, or a header of more than 131072 bytes |
| `EbmlSmallStream.SmallRead` | src/format_ebml.c:644-763 | Of a stream of thirty bytes, for any numbers in it: Tracks and its TrackEntry are entered, the track found, and the Cluster judged by the flags of its block exactly if that is of this track and the track is video |
| `EbmlStream.PumpStep` | src/format_ebml.c:612-815 | Each turn of the loop consumes input or lowers the rank of the state, so the loop ends |
| `EbmlInvariants.PumpKeeps` | src/format_ebml.c:599-839 | A write keeps the invariant and stops only where it must wait; the first thing it refuses are bytes the one-pass parser rejects |
| `EbmlInvariants.UnshiftedKeeps` | src/format_ebml.c:635-642 | So does a refusal, which leaves the fields advanced and the input buffer as it was |
| `EbmlInvariants.ReadKeeps` | src/format_ebml.c:493-584 | A read of the space announced hands out exactly the next chunk and keeps the invariant |
| `EbmlInvariants.HandedOutAligned` | src/format_ebml.c:534-579 | A chunk handed out keeps Clusters at the starts of chunks and sync points at Clusters |
| `EbmlInvariants.ShortHeaderReads` | src/format_ebml.c:505-525 | Reading the header in two parts gives the header exactly if its parts agree |
| `EbmlRuns.BytesConserved` | src/format_ebml.c:284-338 | In every reachable state, refusals or not: header, chunks, read buffer and input buffer together are the bytes written, in this order, exactly if no refused write had moved any; otherwise they are longer by just those moved |
| `EbmlRuns.RefusalRepeats` | src/format_ebml.c:599-642 | A refused write leaves all its input in place while what it moved has been put out as well |
| `EbmlRuns.RefusedAtOnce` | src/format_ebml.c:624-642 | A write is refused with nothing moved exactly if the element at the front of the input buffer is at fault or overflows the header |
| `EbmlRuns.ConservedIff` | src/format_ebml.c:284-338 | A run conserves its bytes exactly if each write it refused had at the front of the input buffer what is at fault |
| `EbmlRuns.RefinesOnePass` | src/format_ebml.c:599-839 | On a stream the one-pass parser accepts nothing is refused, and what any run has recorded is a beginning of what that parser records, and all of it unless the splitter waits for the reader |
| `EbmlRuns.ScheduleIndependent` | src/format_ebml.c:284-338 | Two runs on the same bytes, cut and drained differently, agree on elements, Clusters, verdicts, header and data if one of them has refused nothing |
| `EbmlRuns.ErrorsAreReal` | src/format_ebml.c:599-839 | Something has been refused only if the one-pass parser rejects the bytes, and exactly then unless the splitter waits for the reader |
| `EbmlRuns.ClustersAligned` | src/format_ebml.c:534-579 | Of what comes out, with refusals too, every Cluster tag recognised is the first byte of a chunk, except one that waits marked in the read buffer; none lies inside a chunk |
| `EbmlRuns.SyncPoints` | src/format_ebml.c:543-559 | A sync-point chunk starts a Cluster of the stream; a chunk starting a Cluster is one unless the flags of the first block of the video track in that Cluster say no keyframe, and is one in spite of that only if this block had not been seen |
| `EbmlSmallStream.SmallSync` | src/format_ebml.c:543-559 | However that stream is cut up and drained, the chunk that begins with its Cluster is a sync point as the flags of the block say, or the block had not been seen |
| `EbmlRuns.Patience` | src/format_ebml.c:452-478 | With the beginning of a Cluster in the read buffer nothing is handed out until the buffer is full or the next Cluster waits |
| `EbmlRuns.DueInWrite` | src/format_ebml.c:753-763 | A write makes what there is due only because the next Cluster waits |
| `EbmlRuns.Progress` | src/format_ebml.c:436-484 | With a full input buffer and nothing to read the next write of nothing makes room or refuses, if some element precedes the first Cluster |
| `EbmlRuns.ClusterFirstIsStuck` | src/format_ebml.c:436-484 | A stream that begins with a Cluster never becomes readable |
| `EbmlWitnesses.StuckAtOnce` | src/format_ebml.c:436-484 | There is such a stream: the tag of an empty Cluster |
| `EbmlWitnesses.ClusterRepeats` | src/format_ebml.c:308-323 | For every n there is a run on the same thirteen bytes that hands out n + 1 times an empty Cluster as a sync point |
| `EbmlParser.Parser.ParseTag` | src/format_ebml.c:864-890 | The tag as the one-pass parser sees it |
| `EbmlParser.Parser.CheckTrack` | src/format_ebml.c:841-850 | The first video track with a number becomes the track whose frames count |
| `EbmlParser.Parser.ExamineElement` | src/format_ebml.c:624-763 | The parsing states decide as the specification does |
| `EbmlParser.Parser.Turn` | src/format_ebml.c:612-815 | One turn of the loop is one step of the specification |
| `EbmlParser.Parser.Wrote` | src/format_ebml.c:599-839 | A write in place is that of the specification, with the shift of the rest or, answering -1, without; the parser can be used on in any case |
| `EbmlParser.Parser.GetWriteBuffer` | src/format_ebml.c:591-595 | Input goes behind the unconsumed bytes, into all the room there is |
| `EbmlParser.Parser.ReadSpace` | src/format_ebml.c:436-484 | The space announced and the mark left are those of the specification |
| `EbmlParser.Parser.ReadChunk` | src/format_ebml.c:493-584 | A read in place is the read of the specification, its bytes in the caller's buffer |
| `EbmlPlugin.Plugin.Feed` | src/format_ebml.c:308-331 | Whatever the connection delivers is written to the splitter as specified, and it says whether that was refused |
| `EbmlPlugin.Plugin.GetBuffer` | src/format_ebml.c:284-338 | The call is a run of the splitter on the bytes it takes from the connection, so that all theorems about runs apply; a block returned is the next chunk; the source stops exactly after a refusal of something newly read |
| `QueueSteps.AppendKeeps` | src/source.c:714-733 | Linking a new block keeps list, counts, totals and listeners in order |
| `QueueSteps.AdvanceBurstKeeps` | src/source.c:735-747 | So does moving the burst point |
| `QueueSteps.SetQueueKeeps` | src/client.c:379-389 | So does giving a listener another block, for everybody else; only a listener's own buffer can be freed by it |
| `QueueSteps.AdmitKeeps` | src/source.c:789-817 | So does admitting a listener |
| `QueueSteps.ArriveKeeps` | src/source.c:396-411 | So does the arrival of a listener with its own buffer or none |
| `QueueSteps.UnreferencedHead` | src/source.c:838-859 | A head block with count 1 has a successor, is not the burst point and nobody points at it: "queue state is unexpected" is unreachable |
| `QueueSteps.TrimKeeps` | src/source.c:838-859 | Trimming such a block frees exactly it and keeps everything in order |
| `QueueSteps.Alive` | src/refbuf.c:64-96 | What a listener points at is live memory with the count it should have |
| `Turns.WhereItJoins` | src/format.c:106-139 | A listener new to the stream joins exactly if some block in the burst window is a sync point, at the first such; one in midstream at the newest block if that is one; whatever intro it has had, it is left out only if the newest block is none |
| `Turns.HeadersWhole` | src/format.c:207-255 | A listener goes on to the intro file in a turn that finds all its headers sent |
| `Turns.ErrsIff` | src/source.c:539-590 | A listener has at most eleven turns and comes out in error exactly if it was or trouble took effect in one of them |
| `Turns.CatchesUp` | src/source.c:539-590 | A listener on the queue whose connection takes all it is offered has all there is after one call, unless that is more than 20000 bytes or ten buffers or a block is empty |
| `QueueListeners.JoinKeeps` | src/format.c:126-138 | A listener joins at the start of a sync-point block |
| `QueueListeners.NextKeeps` | src/format.c:272-277 | Going on to the next block continues the stretch sent |
| `QueueListeners.AcceptedKeeps` | src/format.c:242-255 | What a connection accepts continues the stretch sent |
| `QueueListeners.LetGoKeeps` | src/format.c:188-192 | Giving up a block or buffer keeps everything in order |
| `QueueListeners.RemoveKeeps` | src/source.c:958-975 | Removing a listener gives its references back |
| `QueueListeners.HeadUnheld` | src/source.c:581-585 | After a pass over an overfull queue nobody points at its head |
| `QueueListeners.OnlyBurstHolds` | src/source.c:838-859 | A head nobody points at that still cannot go is the burst point |
| `QueueListeners.Conserved` | src/source.c:767-826 | An active listener is gone after the pass exactly if it is in error or, with the queue overfull, at its head; a pending one is turned away exactly if the mount is full at its turn, in the order of connections; nobody else comes or goes |
| `QueueListeners.LimitKept` | src/source.c:789-812 | Nobody is admitted beyond the limit |
| `QueueListeners.RoomUsed` | src/source.c:789-812 | Somebody is turned away only if as many listeners as the limit allows are there |
| `QueueListeners.TurnoverContinues` | src/source.c:767-826 | Those on the mount were there before, and each is sent on where it was |
| `QueueListeners.UntroubledStays` | src/source.c:539-590 | A listener that is all right and to which nothing happens stays exactly if it does not hold up an overfull queue |
| `QueueListeners.Delivery` | src/format.c:242-279 | Over any steps, whatever they are, that leave a listener on its mount: it is sent one contiguous slice of the stream from the sync point it joined at on, without gap or repeat, and nothing it has been sent is sent again |
| `Source.FirstSync` | src/format.c:126-137 | The first sync point from a block on |
| `Source.LookFrom` | src/format.c:114-124 | The search starts at or after the burst point |
| `Source.Source.ClientSetQueue` | src/client.c:379-389 | The counted pointer is swapped and the position reset |
| `Source.Source.AppendBlock` | src/source.c:714-733 | The block is appended, nothing else of the stream changes, all stays in order |
| `Source.Source.CheckBurstPoint` | src/source.c:735-747 | The window comes down to the burst size or the newest block, and no further than it has to |
| `Source.Source.FindStart` | src/format.c:106-138 | The walk over the linked list finds the block the specification names |
| `Source.Source.FindClientStart` | src/format.c:106-139 | The listener joins at the first sync point from the block that has as many bytes between it and the burst point as the listener has had of the intro, modulo 2^64, or from the newest block if there is none; or it stays as it is |
| `Source.Source.FormatAdvanceQueue` | src/format.c:262-279 | Nothing to send, the same block, or the next one from its start |
| `Source.Source.FormatCheckHttpBuffer` | src/format.c:207-239 | Headers are built once, or fail; once they have all been sent the intro file comes |
| `Source.Source.FinishHeaders` | src/format.c:231-238 | Exactly when the headers have been sent the listener goes on to the intro file with a used-up buffer |
| `Source.Source.FormatCheckFileBuffer` | src/format.c:162-201 | From a buffer not used up yet sending goes on; behind one used up comes more of the intro file if there is any, else the queue, joined where FindClientStart says, else the start of the intro; a listener without a buffer joins the queue of a live source or is given a buffer |
| `Source.Source.LeaveIntro` | src/format.c:186-193 | The buffer is given up and the listener joins the queue at the block the search finds, if any |
| `Source.Source.WriteToClient` | src/format.c:242-255 | As many bytes of what is left of the buffer as the connection accepts are written, and the position moves by them; the listener is in error exactly if its connection broke |
| `Source.Source.CheckBuffer` | src/source.c:567-569 | Each phase of a listener checks its buffer as that phase does |
| `Source.Source.CheckAndWrite` | src/source.c:567-574 | A turn checks the buffer and, unless that says no, writes from it |
| `Source.Source.SendSome` | src/source.c:539-577 | Turn follows turn as each leaves the listener, until nothing is sent, the listener is in error, more than 20000 bytes have been sent or there have been ten |
| `Source.Source.SendToListener` | src/source.c:539-590 | Only this listener changes; it is left as its turns make of it, and in error also if it is still at a head that is to go |
| `Source.Source.RemoveListener` | src/source.c:958-975 | The listener is gone, the queue and all others are as they were |
| `Source.Source.ServeListeners` | src/source.c:767-787 | All active listeners have been served, each left as its turns make of it, and exactly those in error or still at a head that is to go are gone |
| `Source.Source.AdmitPending` | src/source.c:789-826 | In the order of their connections pending listeners are admitted exactly as long as there is room |
| `Source.Source.ReduceQueue` | src/source.c:838-859 | Afterwards the head is held by the burst window or a listener |
| `Source.Source.EvictionDue` | src/source.c:838-859 | An overfull queue whose head stays has its burst window there |
| `Source.Source.Iterate` | src/source.c:706-862 | One iteration keeps the invariant and touches no other mount's memory; over the limit the head goes unless the burst window starts there, and the queue grows no longer; who is on the mount afterwards is settled by what happened to whom, the head and the limit |
| `Moves.TakenOffKeeps` | src/source.c:384-411 | A listener taken off a mount leaves its queue in order |
| `Moves.MovingStep` | src/source.c:384-411 | Each listener gone from the one mount is pending on the other |
| `Moves.MoveListener` | src/source.c:384-411 | One that is sent headers takes its buffer along, at the same address; any other lets go of the queue; no third mount's memory changes |
| `Moves.MovedResumes` | src/source.c:384-447 | One that was on the queue joins that of its new mount in its first turn there, at the newest block if that is a sync point; one that had not begun with the intro at the first sync point in the burst window |
| `Moves.MoveClients` | src/source.c:351-459 | Refused exactly if the names agree, the destination neither runs nor is on demand, the source has no format and is not on demand, or the formats differ; otherwise all listeners end pending on the destination, the source has none and nothing else changes |
| `Moves.FreeQueue` | src/source.c:257-271 | The whole queue is freed, each block once, and nothing else |
| `Moves.ClearSource` | src/source.c:201-301 | Nothing of the mount is left in memory, all else is, and the mount is as good as new |
| `Server.OneHome` | src/source.c:351-459 | A live listener is on one list of one mount, what it points at is live memory of that mount with the count it should have, and neither memory nor queue of any other; `listeners` is the size of the list |
| `Server.OneOwner` | src/refbuf.c:64-96 | Every live address belongs to exactly one mount, as a block of its queue or as the buffer of exactly one of its listeners |
| `Server.OnlyThis` | src/source.c:706-862 | When one mount has worked on its own part of the memory, all of them are in order and still apart |
| `Server.Server.Reserve` | src/source.c:80-114 | A mount comes into being unless there is one of its name; nothing else changes |
| `Server.Server.Connect` | src/source.c:789-812 | A new listener is pending on one mount with a buffer of its own for the headers; all other listeners, the queue and the other mounts are as they were |
| `Server.Server.Iterate` | src/source.c:706-862 | An iteration of one mount leaves all mounts in order, with the listeners of that mount as settled there |
| `Server.Server.Move` | src/source.c:351-459 | Either nothing changes, or each listener of the one mount is pending on the other and those that were there are as they were; none is lost or duplicated |
| `Server.Server.Clear` | src/source.c:201-301 | Clearing one mount frees just its memory and leaves the others in order |
| `Server.Server.Delivered` | src/format.c:242-279 | After any calls of the server in any order, with listeners coming, going and being moved: one that has stayed on its mount has been sent one contiguous slice of the stream from the sync point it joined at, no older than the burst point then, and at each earlier call a beginning of it |
| `IcyFrame.FrameMeaning` | src/format_mp3.c:538-653 | What reading finds is what the stream is made of: a complete block of 1 + 16n bytes after every interval of audio |
| `IcyFrame.ReadsBack` | src/format_mp3.c:538-653 | Reading what was interleaved gives back exactly the audio and the blocks |
| `IcyTitle.TitleBlockHolds` | src/format_mp3.c:229-306 | The title block is as long as its length byte says, at most 4081 bytes, NUL-terminated, with the whole song and URL |
| `IcyTitle.ShortestBlock` | src/format_mp3.c:244-271 | The length is that of the texts with a NUL (an artist without title included), and the block is the shortest that holds it; refused exactly beyond 4080 |
| `IcyTitle.BlockInWords` | src/format_mp3.c:229-306 | The block spelled out: its length, artist and title in their order, and the URL |
| `IcyTitle.InlineUrlKept` | src/format_mp3.c:294-303 | An inline URL is kept up to its end |
| `IcyTitle.InlineUrlOverrun` | src/format_mp3.c:249-303 | Nothing follows the end of an inline URL exactly if the length worked out is a multiple of 16 and counts no artist that is not printed |
| `IcyTitle.UrlPrintedTwice` | src/format_mp3.c:294-299 | A title for which the end of the URL is printed twice |
| `IcyTitle.MakeTitle` | src/format_mp3.c:229-306 | The length arithmetic and the printing make that block, or none if it would be too long |
| `IcyFilter.AnnounceKept` | src/format_mp3.c:613-641 | Metadata kept is always a complete block that starts like a title |
| `IcyFilter.InForce` | src/format_mp3.c:613-641 | After any blocks the metadata in force is the last that brought another text than the one before, NUL-terminated, or what was in force before all of them; the stream has ended exactly if one of these did not begin with "StreamTitle=" |
| `IcyFilter.Mp3Source.CompleteRead` | src/format_mp3.c:465-507 | Bytes are collected until there are 1400 |
| `IcyFilter.Mp3Source.ReadFails` | src/format_mp3.c:483-491 | A connection in error drops the part of a block read, and nothing that has come out |
| `IcyFilter.Mp3Source.TakeRest` | src/format_mp3.c:604-611 | A completed block is kept with its last byte forced to NUL |
| `IcyFilter.Mp3Source.Notice` | src/format_mp3.c:613-641 | Empty and unchanged metadata are ignored, a title is kept with the URL in it, anything else ends the stream |
| `IcyFilter.Mp3Source.Filter` | src/format_mp3.c:558-641 | In place, the audio of a block is what remains at its front, wherever metadata begin and end |
| `IcyFilter.Mp3Source.GetBuffer` | src/format_mp3.c:538-653 | A full block comes out as its audio with the metadata in force; the stream ends exactly when metadata is not a title |
| `IcyFilter.Mp3Source.TitleInForce` | src/format_mp3.c:613-653 | At any time the metadata that goes with what comes out is the one in force after the blocks read since the source was last given a title |
| `IcyFilter.Mp3Source.EndsAt` | src/format_mp3.c:613-641 | A full block ends the stream exactly if metadata in it brings another text and is no title |
| `IcyFilter.Mp3Source.SplitIndependent` | src/format_mp3.c:465-653 | The audio that has come out depends on the bytes only, not on how they were cut up |
| `IcyClient.Listener.SendStreamMetadata` | src/format_mp3.c:317-363 | As much as is accepted of the metadata goes out and the counters follow; the metadata last sent changes exactly when a block is complete; part of the block due stays part of it, and a block begun before leaves the stream in step exactly if what was offered is its rest |
| `IcyClient.Listener.WriteBufToClient` | src/format_mp3.c:369-443 | The next stretch of audio goes out, for any amounts accepted and any metadata; what is sent of a block is part of the one due now, and each block completed is the one that was due; after any calls what has been sent can be read back if the metadata has never changed while part of a block had been sent; the result is the number of bytes written |
| `IcyClient.Listener.BegunFits` | src/format_mp3.c:323-362 | The same metadata offered again is exactly the rest of the block begun |
| `IcyClient.DeliveredIs` | src/format_mp3.c:323-346 | The first block completed after the metadata has changed is that metadata, each further one a zero byte; without metadata it is an empty title |
| `IcyClient.ShownIff` | src/format_mp3.c:323-362 | After a block has been completed the text shown is that of the metadata exactly if its address differs from that of the one last sent or the text was shown before |
| `IcyClient.OfferedGood` | src/format_mp3.c:323-346 | What is offered completes the block begun, and a source would take it |
| `IcyClient.InStepIff` | src/format_mp3.c:327-362 | A block completed after a change stays in step exactly if its length is the one begun |
| `IcyRoundTrip.RoundTrip` | src/format_mp3.c:317-653 | A source reading a listener's output at the same interval recovers exactly the audio sent, as long as blocks begun were completed |
| `IcyRoundTrip.ListenersBlocksAccepted` | src/format_mp3.c:613-641 | It never finds the metadata unacceptable |
| `IcyRoundTrip.StaysOpen` | src/format_mp3.c:613-641 | No part of a listener's output, wherever a block of the source ends in it, stops the source |
| `IcyRoundTrip.FeedBack` | src/format_mp3.c:317-653 | A new source fed what can be read back, in pieces of any size, never stops and recovers the audio of all full blocks |
| `IcyRoundTrip.TitleShown` | src/format_mp3.c:317-653 | A source that has taken all of it has the title of the metadata the listener was last sent whole |
| `IcyRoundTrip.Play` | src/format_mp3.c:317-443 | A listener through any calls, with any buffers, metadata and amounts accepted: the audio sent is made up of the stretches of the buffers, and can be read back if the metadata has never changed while part of a block had been sent |
| `IcyRoundTrip.PlayBack` | src/format_mp3.c:317-653 | A new source fed that in any pieces then takes all of it, has these stretches again and ends with the title of the metadata last sent whole, if different metadata had different addresses |
| `IcyRoundTrip.ChangedMidway` | src/format_mp3.c:327-362 | A shorter block offered in the middle of a longer one is not its rest |
| `AuthChain.Setup.VerdictFirst` | src/auth.c:298-399 | In a stack the first authenticator that is for the method and does not answer NOMATCH decides |
| `AuthChain.Setup.StageMeaning` | src/connection.c:1181-1261 | A stage whose deciding result is not an acceptance of something denied is final; any other hands on |
| `AuthChain.Setup.VerdictMeaning` | src/connection.c:1181-1261 | The verdict is that of the first stage that settles the matter, NOMATCH if none does, and there is none without a global stack to end at |
| `AuthChain.Setup.DeciderSettles` | src/connection.c:1181-1250 | The first authenticator of a stack that is for the method and knows the client settles the matter, with failure if it cannot authenticate, unless it accepts a command its access list denies and there is a stage to go on to |
| `AuthChain.Setup.NobodySettles` | src/auth.c:617-625 | A stack without such an authenticator hands on to the next stage, or finds no match in the last one |
| `AuthChain.Setup.NoStack` | src/connection.c:1223-1235 | So does a stage without a stack; without a global one the client is forgotten |
| `AuthServer.Server.AuthAddClient` | src/auth.c:369-399 | Turned away if more than 100 wait for this authenticator, passed on if not for the method, queued if it does not answer at once, else asked |
| `AuthServer.Server.MoveForward` | src/auth.c:617-625 | On to the next authenticator, or the stack has no match |
| `AuthServer.Server.HandleAuthClient` | src/auth.c:249-325 | The authenticator's answer leads to the verdict that was due; a client it does not accept lets go of it |
| `AuthServer.Server.AuthStackAddClient` | src/auth.c:627-639 | A client is put on a stack with a reference of its own; without a stack it is forgotten |
| `AuthServer.Server.OnResult` | src/connection.c:1181-1250 | A result is final or leads to the next stage |
| `AuthServer.Server.TryMount` | src/connection.c:1208-1235 | A mount's stack is tried, or there is no match |
| `AuthServer.Server.HandleAuthedClient` | src/connection.c:1140-1157 | The client has arrived, once, and holds no stack |
| `AuthServer.Server.Authenticate` | src/connection.c:1252-1261 | A new client comes to rest with all invariants kept |
| `AuthServer.Server.RunThread` | src/auth.c:328-364 | The longest waiting client moves strictly forward in its stacks or is done with; nobody else is touched |
| `AuthServer.Server.ArrivesOnce` | src/connection.c:1140-1261 | Every client arrives at most once, with the verdict of the configuration; else it waits in exactly the queue it should, was turned away, or has no verdict |
| `AuthServer.Server.AccessKept` | src/connection.c:1181-1250 | A client that has arrived accepted holds the access list of the first authenticator in the stack of its stage that is for its method and knows it, and but for the global stage this does not deny its command |
| `AuthServer.Server.AllGivenBack` | src/auth.c:641-679 | When nobody waits any longer, a stack node has all its references back exactly if no client was turned away there; else it has one too many for each of them |
| `AuthServer.Server.StackRefs` | src/auth.c:369-384 | At any time the references to a stack node beyond those of the configuration are those of the clients that wait there and of those turned away there |
| `AuthServer.Goes` | src/auth.c:181-226 | Every reference counted is one held by configuration or by a client |
| `Md5.FoldOn` | src/md5.c:83-130 | Blocks may be compressed in any division at multiples of 64 |
| `Md5.Carried` | src/md5.c:89-97 | The two 32-bit words count 8 times the length modulo 2^64 |
| `Md5.PaddedWhole` | src/md5.c:136-172 | The padded message consists of whole blocks and is as short as possible |
| `Md5.InitialBytes` | src/md5.c:68-77 | The state begins with the bytes 01 23 ... 10 of section 3.3 of RFC 1321 |
| `Md5.ShortDigest` | src/md5.c:136-179 | The digest of a message of less than 56 bytes, byte by byte up to the one compression |
| `Md5.Context.Update` | src/md5.c:83-130 | The context stands for the concatenation of all data |
| `Md5.Context.Pad` | src/md5.c:142-168 | The last block or two are those of the padded message |
| `Md5.Context.Final` | src/md5.c:136-179 | The digest is that of the whole message, as in sections 3.1 to 3.5 of RFC 1321 |
| `Md5.DigestInPieces` | src/md5.c:68-179 | For every way of splitting a message the digest is the same |
| `Stats.ProcessedAt` | src/stats.c:440-590 | An event changes its own value only, to what it is passed on with unless ADD or SUB changes an existing one |
| `Stats.CountsRight` | src/stats.c:440-590 | INC, DEC, ADD and SUB count from the number that is there, SET puts a value, REMOVE takes it away |
| `Stats.CountsBack` | src/stats.c:440-590 | INC and DEC, and ADD and SUB of the same amount, undo each other |
| `Stats.StaysInStep` | src/stats.c:419-590 | A client in step stays so exactly if the event is passed on with the new value |
| `StatsServer.Server.ModifyNode` | src/stats.c:440-487 | The new value, which an event without a value is given |
| `StatsServer.Server.ProcessGlobalEvent` | src/stats.c:490-517 | Global values change as specified |
| `StatsServer.Server.ProcessSourceEvent` | src/stats.c:520-590 | Values of sources change as specified |
| `StatsServer.Server.ThreadTurn` | src/stats.c:695-731 | Every listener is sent the event; one whose snapshot and log yielded the values stays in step exactly if the event tells the new value |
| `StatsServer.Server.Snapshot` | src/stats.c:915-940 | The events of a snapshot yield exactly the current values |
| `StatsServer.Server.RegisterListener` | src/stats.c:908-948 | A new listener knows the current values |
| `StatsServer.Server.SendNext` | src/stats.c:786-799 | Taking an event off a listener's queue changes nothing about what it knows |
| `Relays.UnlinkedList` | src/slave.c:520-541 | Redirecting the link that led to a node takes out exactly that node |
| `Relays.RelayList.Find` | src/slave.c:520-530 | The first relay that serves for the settings, and the link that leads to it |
| `Relays.RelayList.UpdateRelaySet` | src/slave.c:511-545 | The old relays are divided between the two lists, those left over in their order, the new list matching the settings in reverse |
| `Relays.Reconciled` | src/slave.c:511-564 | Each old relay is in exactly one list; a relay is made only if none of those to be shut down would have served |
| `Relays.MatchesSettings` | src/slave.c:486-564 | Each relay of the new list agrees with its settings in server, port, mount points, metadata and on-demand, and keeps running if it was; one is made only if every relay to be shut down differs in one of them |
| `Relays.CredentialsCarried` | src/slave.c:486-564 | A relay has the user name and password of its settings exactly if it was made for them or had them before |
| `Relays.OldPasswordKept` | src/slave.c:486-530 | A relay that keeps an old password |
| `OggHeaders.InsertLinked` | src/format_ogg.c:90-111 | A page linked in at a place of the list is there and nothing else moves |
| `OggHeaders.OggState.AttachHeader` | src/format_ogg.c:90-111 | A page with one reference: all BOS pages in order of arrival, then all others; tail and bos_end are the last page and the link after the last BOS page |
| `OggHeaders.OggState.FreeHeaders` | src/format_ogg.c:114-130 | Each page loses one reference and is freed with its last |
| `Codecs.Base64RoundTrip` | src/util.c:416-493 | Decoding what was encoded gives the data filled up with zeros to a multiple of three |
| `Codecs.BeyondShows` | src/util.c:422-425 | Memory behind the data shows in the text exactly for a single left-over byte with high bits behind it |
| `Codecs.Alphabet` | src/util.c:82-106 | The letters of base64, in their order |
| `Codecs.QuadInWords` | src/util.c:416-440 | Four letters are the bits of three bytes, most significant first |
| `Codecs.TripleInWords` | src/util.c:450-493 | Which fours are passed over, and what any other stands for |
| `Codecs.Base64Encode` | src/util.c:416-448 | The text fits in the buffer allocated |
| `Codecs.Base64Decode` | src/util.c:450-493 | So do the data; what is not base64 is passed over or refused |
| `Codecs.UrlRoundTrip` | src/util.c:287-361 | Unescaping what was escaped gives it back |
| `Codecs.EscapedInWords` | src/util.c:59-80 | Letters and digits are left as they are, any other byte becomes its two lower-case digits |
| `Codecs.HexInWords` | src/util.c:219-228 | Digits are read in either case |
| `Codecs.UnescapedInWords` | src/util.c:315-361 | An escape is replaced, a bad one refused, a '#' ends the text, anything else stays |
| `Codecs.UrlEscape` | src/util.c:287-313 | The escaped text fits in the buffer allocated |
| `Codecs.UrlUnescape` | src/util.c:315-361 | So does the unescaped one; a bad escape is refused and a '#' ends the text |

## Left out

- Sockets, TLS, curl, XML and XSLT, configuration parsing, logging, file serving and admin pages.
- libogg, libvorbis, libtheora and libkate, and with them Ogg pages beyond the header list.
- AVL trees: they are sets and maps here.
- Allocation failure, and overflow of 32-bit totals of queued bytes.
- Clocks and statistics updates in the mount's loop: in which turn a listener's time is over is a parameter.
- The dump file, `prev_listeners` and `peak_listeners`, and the stop of an on-demand mount without listeners.
- The text of response headers: a listener's own buffer has a length only.
- Source.Source.FormatCheckFileBuffer: of the intro file only how much there is of it counts, not which bytes.
- IcyTitle.MakeTitle: `inline_url` is a value and not a pointer into the metadata it came from.
- AuthServer.Server.RunThread: configuration does not change while clients wait, so no authenticator or stack node is
  ever freed.
- The release of a client's authenticator at disconnection (`auth_release_client`) and the access list of methods.
- Md5.Context.Final: the compression function of section 3.4 of RFC 1321 is a parameter.
- StatsServer.Server.ThreadTurn: requires that INC and DEC of a global value find it, since the server fails otherwise;
  HIDDEN events and `stats_clear_virtual_mounts` are not modelled.
- Stats.StaysInStep: reading and printing of decimal numbers are parameters.
- The text of lines sent to a stats client, which are dropped when longer than 199 characters.
- OggHeaders.OggState.FreeHeaders: the "next not null" message of `refbuf_release`.
- Matchfiles, playlists, YP and content negotiation.
