/** What one call of send_to_listener makes of a listener, turn by turn: what it checks, what it writes and when it
    stops. */
module Turns {
  import opened Bytes
  import opened Heap
  import opened QueueState

  // ----- where a listener joins the queue

  /** The bytes of the blocks from `i` on that lie before block `j`. */
  function BytesBetween(blocks: seq<Block>, i: nat, j: nat): int {
    Total(blocks, i) - Total(blocks, j)
  }

  /** Block `j` is the first from the burst point on that has the bytes already had as an intro between them, counted
      modulo 2^64, or the newest if there is none. */
  ghost predicate BehindIntro(blocks: seq<Block>, burst: nat, offset: int, j: nat) {
    && burst <= j < |blocks|
    && ((BytesBetween(blocks, burst, j) - offset) % 0x1_0000_0000_0000_0000 == 0 || j == |blocks| - 1)
    && forall k :: burst <= k < j ==>
         (BytesBetween(blocks, burst, k) - offset) % 0x1_0000_0000_0000_0000 != 0
  }

  /** Where to look from: a listener in midstream starts at the newest block if it can. */
  ghost predicate Begins(blocks: seq<Block>, burst: nat, offset: int, j: nat) {
    if offset == -1 && blocks != [] && blocks[|blocks| - 1].sync then j == |blocks| - 1
    else BehindIntro(blocks, burst, offset, j)
  }

  ghost predicate SyncFrom(blocks: seq<Block>, i: nat) {
    exists k :: i <= k < |blocks| && blocks[k].sync
  }

  ghost predicate IsFirstSync(blocks: seq<Block>, i: nat, k: nat) {
    i <= k < |blocks| && blocks[k].sync && forall l :: i <= l < k ==> !blocks[l].sync
  }

  /** The listener has joined the queue at the start of block `k`. */
  predicate JoinedAt(blocks: seq<Block>, c: Client, c': Client, k: nat) {
    && k < |blocks|
    && c' == c.(check := AdvanceQueue, introOffset := -1, start := k, sent := [], refbuf := blocks[k].ptr, pos := 0)
  }

  /** A listener that points nowhere joins the queue at the first sync point from where it is to look, or stays as it is
      if there is none. */
  ghost predicate Joins(blocks: seq<Block>, burst: nat, c: Client, c': Client) {
    if blocks == [] then c' == c
    else exists j :: Begins(blocks, burst, c.introOffset, j) && JoinsFrom(blocks, c, c', j)
  }

  ghost predicate JoinsFrom(blocks: seq<Block>, c: Client, c': Client, j: nat) {
    if SyncFrom(blocks, j) then IsFirstSync(blocks, j, c'.start) && JoinedAt(blocks, c, c', c'.start) else c' == c
  }

  /** A listener new to the stream joins exactly if there is a sync point in the burst window, at the first one; one in
      midstream at the newest block if that is a sync point. Whatever it has had before, it is left out only if neither
      the newest block is a sync point nor any before it from where it looked. */
  lemma WhereItJoins(blocks: seq<Block>, burst: nat, c: Client, c': Client)
    requires Joins(blocks, burst, c, c') && c.check != AdvanceQueue && blocks != []
    ensures c.introOffset == 0 ==>
      && (c'.check == AdvanceQueue <==> SyncFrom(blocks, burst))
      && (c'.check == AdvanceQueue ==> IsFirstSync(blocks, burst, c'.start))
    ensures var newest := |blocks| - 1;
      && (c.introOffset == -1 && blocks[newest].sync ==> c'.check == AdvanceQueue && c'.start == newest)
      && (c'.check != AdvanceQueue ==> !blocks[newest].sync)
  {
    var j :| Begins(blocks, burst, c.introOffset, j) && JoinsFrom(blocks, c, c', j);
    if c.introOffset == 0 {
      assert BytesBetween(blocks, burst, burst) == 0;
    }
  }

  // ----- what the world does to a listener

  /** What befalls a listener in one turn: the time it may stay is over, its response headers cannot be built, or its
      connection breaks when written to. */
  datatype Trouble = Fine | TimeOver | Unbuildable | Broken

  /** What comes to a listener in one turn: trouble; how long its response headers are, if they are built; how much
      there is to be read from the intro file; and how much its connection accepts, -1 for an error. */
  datatype Luck = Luck(trouble: Trouble, headers: nat, intro: nat, takes: int)

  /** Which listener meets what in which turn. */
  type World = (nat, nat) -> Luck

  // ----- one turn

  /** A listener with the length of the buffer it points at, and the place of that in the stream, -1 if it is the
      listener's own or there is none. */
  datatype Standing = Standing(c: Client, len: nat, at: int)

  function StandingOf(mem: Memory, c: Client): Standing {
    if c.refbuf in mem then Standing(c, mem[c.refbuf].len, mem[c.refbuf].place) else Standing(c, 0, -1)
  }

  /** What there is for a listener to be sent: the stream so far, where in it the burst window begins, and whether there
      is a source. */
  datatype Stream = Stream(blocks: seq<Block>, burst: nat, live: bool)

  function StreamOf(v: Src): Stream {
    Stream(v.blocks, v.burst, v.live)
  }

  /** A turn in which nothing is tried, or one in which the buffer is checked, with the answer `r`, and `bytes` bytes of
      it are written. */
  datatype Turn = Idle | Tried(before: Standing, mid: Standing, r: int, bytes: int, after: Standing)
  {
    /** The headers are to be built in this turn. */
    predicate Builds() {
      Tried? && Unanswered(before.c)
    }

    predicate Writes() {
      Tried? && r >= 0
    }
  }

  /** The listener's headers have not been built. */
  predicate Unanswered(c: Client) {
    c.check == HttpBuffer && c.respcode == 0
  }

  /** A listener whose headers have gone out: the intro file comes next, from a buffer that counts as used up. */
  function HeadersSent(c: Client): Client {
    c.(check := FileBuffer, introOffset := 0, pos := 4096)
  }

  /** format_check_http_buffer: headers are built once, or fail; once they have been sent the intro file comes. */
  predicate HttpChecked(x: Standing, y: Standing, r: int, luck: Luck) {
    if x.c.respcode == 0 && luck.trouble == Unbuildable then
      r == -1 && y == x.(c := x.c.(error := true, respcode := 500))
    else
      var len, c := if x.c.respcode == 0 then luck.headers else x.len, x.c.(respcode := 200);
      if c.pos == len then r == -1 && y == x.(c := HeadersSent(c), len := 4096)
      else r == 0 && y == x.(c := c, len := len)
  }

  /** find_client_start. */
  ghost predicate Lands(q: Stream, c: Client, y: Standing) {
    && Joins(q.blocks, q.burst, c, y.c)
    && if y.c.check == AdvanceQueue
       then y.c.start < |q.blocks| && y.at == y.c.start && y.len == |q.blocks[y.c.start].data|
       else y.at == -1 && y.len == 0
  }

  /** Behind a buffer that has been used up: more of the intro file, else the queue, else the intro file again. */
  ghost predicate IntroOver(q: Stream, x: Standing, y: Standing, r: int, luck: Luck) {
    if luck.intro > 0 then
      var n := Min(luck.intro, 4096);
      r == 0 && y == x.(c := x.c.(pos := 0, introOffset := x.c.introOffset + n), len := n)
    else if q.blocks != [] then r == -1 && Lands(q, x.c.(refbuf := NULL, pos := 0), y)
    else r == -1 && y == x.(c := x.c.(introOffset := 0))
  }

  /** format_check_file_buffer: a listener without a buffer joins the queue of a live source, or is given a buffer that
      counts as used up. */
  ghost predicate FileChecked(q: Stream, x: Standing, y: Standing, r: int, luck: Luck) {
    if x.c.refbuf == NULL && q.live then r == -1 && Lands(q, x.c, y)
    else if x.c.refbuf == NULL then
      IntroOver(q, Standing(x.c.(refbuf := y.c.refbuf, pos := 4096, introOffset := 0), 4096, -1), y, r, luck)
    else if x.c.pos == x.len then IntroOver(q, x, y, r, luck)
    else r == 0 && y == x
  }

  /** format_advance_queue: a block used up is followed by the next one, if there is one. */
  predicate QueueChecked(q: Stream, x: Standing, y: Standing, r: int) {
    && 0 <= x.at < |q.blocks| && x.len == |q.blocks[x.at].data| && x.c.refbuf == q.blocks[x.at].ptr
    && if x.c.pos < x.len then r == 0 && y == x
       else if x.at + 1 < |q.blocks| then
         r == 0
         && y == Standing(x.c.(refbuf := q.blocks[x.at + 1].ptr, pos := 0), |q.blocks[x.at + 1].data|, x.at + 1)
       else r == -1 && y == x
  }

  /** client->check_buffer */
  ghost predicate Checked(q: Stream, x: Standing, y: Standing, r: int, luck: Luck) {
    match x.c.check
    case HttpBuffer => HttpChecked(x, y, r, luck)
    case FileBuffer => FileChecked(q, x, y, r, luck)
    case AdvanceQueue => QueueChecked(q, x, y, r)
  }

  /** client->write_to_client: as much of what is left of the buffer as the connection accepts. */
  predicate Wrote(q: Stream, y: Standing, z: Standing, bytes: int, luck: Luck) {
    && y.c.pos <= y.len && bytes == (if luck.takes < 0 then -1 else Min(luck.takes, y.len - y.c.pos))
    && var n: nat := if bytes > 0 then bytes else 0;
    && (y.c.check == AdvanceQueue ==> 0 <= y.at < |q.blocks| && y.len == |q.blocks[y.at].data|)
    && z == y.(c := y.c.(pos := y.c.pos + n, error := luck.trouble == Broken,
                         sent := if y.c.check == AdvanceQueue
                                 then y.c.sent + q.blocks[y.at].data[y.c.pos..y.c.pos + n] else y.c.sent))
  }

  ghost predicate Turned(q: Stream, turn: Turn, luck: Luck)
    requires turn.Tried?
  {
    && Checked(q, turn.before, turn.mid, turn.r, luck)
    && if turn.r < 0 then turn.bytes == -1 && turn.after == turn.mid
       else !turn.mid.c.error && Wrote(q, turn.mid, turn.after, turn.bytes, luck)
  }

  // ----- the loop

  /** How a listener comes to its turns and is left after them. */
  datatype Service = Service(from: Standing, client: Client, turns: seq<Turn>)

  /** The bytes written in the first `n` turns. */
  function WrittenIn(turns: seq<Turn>, n: nat): int
    requires n <= |turns|
  {
    if n == 0 then 0
    else WrittenIn(turns, n - 1) + (if turns[n - 1].Tried? && turns[n - 1].bytes > 0 then turns[n - 1].bytes else 0)
  }

  /** How the listener stands before turn `i`. */
  function StandsAt(from: Standing, turns: seq<Turn>, i: nat): Standing
    requires i <= |turns| && (i > 0 ==> turns[i - 1].Tried?)
  {
    if i == 0 then from else turns[i - 1].after
  }

  /** Turn `i` is one in which something is tried: the listener's time is not over and it is not in error, it has not
      been sent too much yet, and these are not too many turns. */
  ghost predicate TurnAt(q: Stream, world: World, id: nat, from: Standing, turns: seq<Turn>, i: nat)
    requires i < |turns|
  {
    && turns[i].Tried? && i < 10 && (i > 0 ==> turns[i - 1].Tried?) && turns[i].before == StandsAt(from, turns, i)
    && world(id, i).trouble != TimeOver && !turns[i].before.c.error && WrittenIn(turns, i) <= 20000
    && Turned(q, turns[i], world(id, i))
  }

  /** The first `n` turns have each sent something. */
  ghost predicate Going(q: Stream, world: World, id: nat, from: Standing, turns: seq<Turn>, n: nat)
    requires n <= |turns|
  {
    forall i {:trigger turns[i]} :: 0 <= i < n ==> TurnAt(q, world, id, from, turns, i) && turns[i].bytes > 0
  }

  /** The loop of send_to_listener: it ends with a turn that sent nothing, or when the listener is in error, has been
      sent more than 20000 bytes, or has had its turns. */
  ghost predicate Driven(q: Stream, world: World, id: nat, s: Service) {
    && s.turns != []
    && var n := |s.turns| - 1;
    && Going(q, world, id, s.from, s.turns, n)
    && if s.turns[n].Tried? then
         TurnAt(q, world, id, s.from, s.turns, n) && s.turns[n].bytes <= 0 && s.client == s.turns[n].after.c
       else
         (n > 0 ==> s.turns[n - 1].Tried?)
         && var c := StandsAt(s.from, s.turns, n).c;
         && s.client == c.(error := c.error || world(id, n).trouble == TimeOver)
         && (s.client.error || WrittenIn(s.turns, n) > 20000 || n == 10)
  }

  lemma {:induction false} WrittenSame(turns: seq<Turn>, turn: Turn, n: nat)
    requires n <= |turns|
    ensures WrittenIn(turns + [turn], n) == WrittenIn(turns, n)
  {
    if n > 0 {
      WrittenSame(turns, turn, n - 1);
    }
  }

  lemma NoTurnYet(q: Stream, world: World, id: nat, from: Standing)
    ensures Going(q, world, id, from, [], 0)
  {
  }

  /** One more turn in which something is tried. */
  lemma TurnDone(q: Stream, world: World, id: nat, from: Standing, turns: seq<Turn>, turn: Turn)
    requires Going(q, world, id, from, turns, |turns|) && turn.Tried? && |turns| < 10
    requires (|turns| > 0 ==> turns[|turns| - 1].Tried?) && turn.before == StandsAt(from, turns, |turns|)
    requires world(id, |turns|).trouble != TimeOver && !turn.before.c.error && WrittenIn(turns, |turns|) <= 20000
    requires Turned(q, turn, world(id, |turns|))
    ensures var all, n := turns + [turn], |turns|;
      && Going(q, world, id, from, all, n) && TurnAt(q, world, id, from, all, n)
      && (turn.bytes > 0 ==> Going(q, world, id, from, all, n + 1))
      && WrittenIn(all, n + 1) == WrittenIn(turns, n) + (if turn.bytes > 0 then turn.bytes else 0)
  {
    hide Turned;
    var all, n := turns + [turn], |turns|;
    WrittenSame(turns, turn, n);
    GoesOn(q, world, id, from, turns, turn);
  }

  lemma GoesOn(q: Stream, world: World, id: nat, from: Standing, turns: seq<Turn>, turn: Turn)
    requires Going(q, world, id, from, turns, |turns|)
    ensures Going(q, world, id, from, turns + [turn], |turns|)
  {
    hide Turned;
    var all := turns + [turn];
    forall i | 0 <= i < |turns|
      ensures TurnAt(q, world, id, from, all, i) && all[i].bytes > 0
    {
      assert TurnAt(q, world, id, from, turns, i) && all[i] == turns[i];
      assert i > 0 ==> all[i - 1] == turns[i - 1];
      WrittenSame(turns, turn, i);
    }
  }

  /** The last turn. */
  lemma LoopOver(q: Stream, world: World, id: nat, from: Standing, turns: seq<Turn>, turn: Turn, c: Client)
    requires Going(q, world, id, from, turns, |turns|) && (|turns| > 0 ==> turns[|turns| - 1].Tried?)
    requires if turn.Tried? then
               TurnAt(q, world, id, from, turns + [turn], |turns|) && turn.bytes <= 0 && c == turn.after.c
             else
               var c0 := StandsAt(from, turns, |turns|).c;
               && c == c0.(error := c0.error || world(id, |turns|).trouble == TimeOver)
               && (c.error || WrittenIn(turns, |turns|) > 20000 || |turns| == 10)
    ensures Driven(q, world, id, Service(from, c, turns + [turn]))
  {
    hide TurnAt, Going;
    GoesOn(q, world, id, from, turns, turn);
    WrittenSame(turns, turn, |turns|);
  }

  // ----- what follows from it

  /** The trouble takes effect. */
  predicate Hits(trouble: Trouble, turn: Turn) {
    trouble == TimeOver || (trouble == Unbuildable && turn.Builds()) || (trouble == Broken && turn.Writes())
  }

  ghost predicate Hit(world: World, id: nat, turns: seq<Turn>) {
    exists i :: 0 <= i < |turns| && Hits(world(id, i).trouble, turns[i])
  }

  /** The headers are sent whole: a listener goes on to the intro file in a turn that finds them all sent, and until
      then what is written is what it gets on by. */
  lemma HeadersWhole(q: Stream, turn: Turn, luck: Luck)
    requires turn.Tried? && Turned(q, turn, luck) && turn.before.c.check == HttpBuffer
    requires turn.before.c.respcode == 200 && turn.before.c.pos <= turn.before.len
    ensures if turn.before.c.pos == turn.before.len then turn.after.c.check == FileBuffer
            else turn.after.c.check == HttpBuffer && turn.after.c.pos <= turn.after.len == turn.before.len
                 && turn.after.c.pos == turn.before.c.pos + (if turn.bytes > 0 then turn.bytes else 0)
  {
  }

  /** Something is to befall the listener in a turn that it may have: send_to_listener looks at the time once more after
      its last write. */
  ghost predicate Troubled(world: World, id: nat) {
    exists i: nat :: i < 11 && world(id, i).trouble != Fine
  }
  /** A listener is left as its turns make of it. */
  ghost predicate Fated(q: Stream, world: World, id: nat, c: Client, s: Service) {
    s.from.c == c && Driven(q, world, id, s)
  }

  lemma TurnErrs(q: Stream, world: World, id: nat, from: Standing, turns: seq<Turn>, i: nat)
    requires i < |turns| && TurnAt(q, world, id, from, turns, i)
    ensures turns[i].after.c.error <==> Hits(world(id, i).trouble, turns[i])
  {
    hide Joins;
    var x, y := turns[i].before, turns[i].mid;
    if x.c.check == FileBuffer {
      LandsUnhurt(q, x, y, turns[i].r, world(id, i));
    }
  }

  lemma LandsUnhurt(q: Stream, x: Standing, y: Standing, r: int, luck: Luck)
    requires FileChecked(q, x, y, r, luck)
    ensures y.c.error == x.c.error
  {
    hide Begins, SyncFrom, IsFirstSync;
  }

  /** A listener has at most eleven turns, and comes out in error exactly if it was or if trouble took effect in one of
      them. */
  lemma ErrsIff(q: Stream, world: World, id: nat, s: Service)
    requires Driven(q, world, id, s)
    ensures 1 <= |s.turns| <= 11
    ensures s.client.error <==> s.from.c.error || Hit(world, id, s.turns)
    ensures !s.from.c.error && world(id, 0).trouble != TimeOver ==> (s.turns[0].Builds() <==> Unanswered(s.from.c))
  {
    hide Turned, Hits;
    var n := |s.turns| - 1;
    assert n > 0 ==> TurnAt(q, world, id, s.from, s.turns, n - 1);
    forall i | 0 <= i < n
      ensures !s.from.c.error && TurnAt(q, world, id, s.from, s.turns, i)
      ensures s.turns[i].after.c.error <==> Hits(world(id, i).trouble, s.turns[i])
      ensures i + 1 < n ==> !s.turns[i].after.c.error
    {
      assert TurnAt(q, world, id, s.from, s.turns, 0);
      assert i + 1 < n ==> TurnAt(q, world, id, s.from, s.turns, i + 1);
      TurnErrs(q, world, id, s.from, s.turns, i);
    }
    LastHit(q, world, id, s);
  }

  lemma LastHit(q: Stream, world: World, id: nat, s: Service)
    requires Driven(q, world, id, s)
    requires forall i :: 0 <= i < |s.turns| - 1 ==> !s.from.c.error && TurnAt(q, world, id, s.from, s.turns, i)
    requires forall i :: 0 <= i < |s.turns| - 1 ==>
      (s.turns[i].after.c.error <==> Hits(world(id, i).trouble, s.turns[i]))
    requires forall i :: 0 <= i < |s.turns| - 2 ==> !s.turns[i].after.c.error
    ensures s.client.error <==> s.from.c.error || Hit(world, id, s.turns)
  {
    hide Turned, Going;
    var n := |s.turns| - 1;
    assert n > 0 ==> TurnAt(q, world, id, s.from, s.turns, n - 1) && !s.from.c.error
                     && (s.turns[n - 1].after.c.error <==> Hits(world(id, n - 1).trouble, s.turns[n - 1]));
    if s.turns[n].Tried? {
      TurnErrs(q, world, id, s.from, s.turns, n);
      assert !s.turns[n].before.c.error && s.turns[n].before == StandsAt(s.from, s.turns, n);
    }
    LastOf(world, id, s.turns, s.client.error, s.from.c.error);
  }

  lemma LastOf(world: World, id: nat, turns: seq<Turn>, error: bool, was: bool)
    requires turns != [] && var n := |turns| - 1;
      && (forall i :: 0 <= i < n - 1 ==> !Hits(world(id, i).trouble, turns[i]))
      && (error <==>
            was || Hits(world(id, n).trouble, turns[n]) || (n > 0 && Hits(world(id, n - 1).trouble, turns[n - 1])))
    ensures error <==> was || Hit(world, id, turns)
  {
    hide Hits;
  }

  lemma HitTroubles(world: World, id: nat, turns: seq<Turn>)
    requires |turns| <= 11
    ensures Hit(world, id, turns) ==> Troubled(world, id)
  {
  }

  /** A listener on the queue whose connection takes all it is offered, and to which nothing happens, is sent all there
      is, if it is not sent more than 20000 bytes or ten buffers at once; an empty block makes it wait. */
  lemma CatchesUp(q: Stream, world: World, id: nat, s: Service)
    requires Driven(q, world, id, s) && s.from.c.check == AdvanceQueue && !s.from.c.error && s.from.c.pos <= s.from.len
    requires forall i: nat :: world(id, i).trouble == Fine && world(id, i).takes >= 0
    requires forall i: nat, j: nat :: j < |q.blocks| ==> |q.blocks[j].data| <= world(id, i).takes
    ensures var n := |s.turns| - 1;
      if s.turns[n].Idle? then n == 10 || WrittenIn(s.turns, n) > 20000
      else var z := s.turns[n].after;
        s.client == z.c && 0 <= z.at < |q.blocks| && s.client.pos == |q.blocks[z.at].data|
        && (z.at + 1 == |q.blocks| || q.blocks[z.at].data == [])
  {
    hide Going, TurnAt, StandsAt;
    var n := |s.turns| - 1;
    StaysOnQueue(q, world, id, s, n);
    if s.turns[n].Tried? {
      NothingLeft(q, world, id, s.from, s.turns, n);
    } else {
      Unhurt(q, world, id, s, n);
    }
  }

  /** With a connection like that, a turn that sends nothing is at the end of the queue, or at an empty block. */
  lemma NothingLeft(q: Stream, world: World, id: nat, from: Standing, turns: seq<Turn>, n: nat)
    requires n < |turns| && TurnAt(q, world, id, from, turns, n) && turns[n].bytes <= 0
    requires turns[n].before.c.check == AdvanceQueue && turns[n].before.c.pos <= turns[n].before.len
    requires world(id, n).takes >= 0
    requires forall j: nat :: j < |q.blocks| ==> |q.blocks[j].data| <= world(id, n).takes
    ensures var z := turns[n].after;
      && 0 <= z.at < |q.blocks| && z.c.pos == |q.blocks[z.at].data|
      && (z.at + 1 == |q.blocks| || q.blocks[z.at].data == [])
  {
  }

  lemma TurnBefore(q: Stream, world: World, id: nat, s: Service, i: nat)
    requires Driven(q, world, id, s) && i + 1 < |s.turns|
    ensures TurnAt(q, world, id, s.from, s.turns, i) && s.turns[i].bytes > 0
  {
  }

  lemma QueueTurn(q: Stream, world: World, id: nat, from: Standing, turns: seq<Turn>, i: nat)
    requires i < |turns| && TurnAt(q, world, id, from, turns, i) && turns[i].before.c.check == AdvanceQueue
    requires turns[i].before.c.pos <= turns[i].before.len
    ensures turns[i].after.c.check == AdvanceQueue && turns[i].after.c.pos <= turns[i].after.len
  {
  }

  lemma {:induction false} StaysOnQueue(q: Stream, world: World, id: nat, s: Service, i: nat)
    requires Driven(q, world, id, s) && s.from.c.check == AdvanceQueue && s.from.c.pos <= s.from.len && i < |s.turns|
    ensures i > 0 ==> s.turns[i - 1].Tried?
    ensures var x := StandsAt(s.from, s.turns, i); x.c.check == AdvanceQueue && x.c.pos <= x.len
    ensures s.turns[i].Tried? ==>
      s.turns[i].before == StandsAt(s.from, s.turns, i) && TurnAt(q, world, id, s.from, s.turns, i)
  {
    hide Going, Turned;
    if i > 0 {
      StaysOnQueue(q, world, id, s, i - 1);
      TurnBefore(q, world, id, s, i - 1);
      QueueTurn(q, world, id, s.from, s.turns, i - 1);
    }
    if i + 1 < |s.turns| {
      TurnBefore(q, world, id, s, i);
    }
  }

  lemma Unhurt(q: Stream, world: World, id: nat, s: Service, n: nat)
    requires Driven(q, world, id, s) && n == |s.turns| - 1 && s.turns[n].Idle? && !s.from.c.error
    requires forall i: nat :: world(id, i).trouble == Fine
    ensures !s.client.error
  {
    ErrsIff(q, world, id, s);
  }
}
