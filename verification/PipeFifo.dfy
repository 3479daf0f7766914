/** One reader and one writer of a pipe, interleaved at every load and store (user/lib/pipe.c). */
module PipeFifo {

  const BY2PIPE: nat := 32
  const TWO32: nat := 0x1_0000_0000

  type Byte = x: nat | x < 256

  /** pipe_read's place: the registers it has loaded so far. */
  datatype Reader =
    | RIdle
    | RPos(r: nat)
    | RTested
    | RIndex(r: nat)
    | RByte(b: Byte)
    | RBump(b: Byte, r: nat)

  /** pipe_write's place while it sends byte b. */
  datatype Writer =
    | WIdle
    | WPos(b: Byte, w: nat)
    | WTested(b: Byte)
    | WIndex(b: Byte, w: nat)
    | WStored(b: Byte)
    | WBump(b: Byte, w: nat)

  /** struct Pipe, and all the bytes whose position has been passed on either side. */
  datatype Pipe = Pipe(rpos: nat, wpos: nat, buf: seq<Byte>, written: seq<Byte>, read: seq<Byte>, reader: Reader, writer: Writer)

  datatype Step =
    | LoadRpos          // reader: p_rpos, for the emptiness test
    | LoadWposAndTest   // reader: p_wpos, then p_rpos == p_wpos
    | LoadRposAgain     // reader: p_rpos, for the index
    | LoadByte          // reader: p_buf[p_rpos % 32]
    | LoadRposToBump    // reader: p_rpos, for += 1
    | StoreRpos         // reader
    | LoadWpos(b: Byte) // writer: p_wpos, for the fullness test
    | LoadRposAndTest   // writer: p_rpos, then p_wpos - p_rpos == 32
    | LoadWposAgain     // writer: p_wpos, for the index
    | StoreByte         // writer: p_buf[p_wpos % 32]
    | LoadWposToBump    // writer
    | StoreWpos         // writer

  predicate Enabled(s: Pipe, l: Step) {
    match l
    case LoadRpos => s.reader.RIdle?
    case LoadWposAndTest => s.reader.RPos?
    case LoadRposAgain => s.reader.RTested?
    case LoadByte => s.reader.RIndex? && |s.buf| == BY2PIPE
    case LoadRposToBump => s.reader.RByte?
    case StoreRpos => s.reader.RBump?
    case LoadWpos(_) => s.writer.WIdle?
    case LoadRposAndTest => s.writer.WPos?
    case LoadWposAgain => s.writer.WTested?
    case StoreByte => s.writer.WIndex? && |s.buf| == BY2PIPE
    case LoadWposToBump => s.writer.WStored?
    case StoreWpos => s.writer.WBump?
  }

  /** Unsigned 32-bit difference. */
  function Sub32(a: nat, b: nat): nat {
    (a - b) % TWO32
  }

  function Next(s: Pipe, l: Step): Pipe
    requires Enabled(s, l)
  {
    match l
    case LoadRpos => s.(reader := RPos(s.rpos))
    case LoadWposAndTest => s.(reader := if s.reader.r == s.wpos then RIdle else RTested)
    case LoadRposAgain => s.(reader := RIndex(s.rpos))
    case LoadByte => s.(reader := RByte(s.buf[s.reader.r % BY2PIPE]))
    case LoadRposToBump => s.(reader := RBump(s.reader.b, s.rpos))
    case StoreRpos => s.(rpos := (s.reader.r + 1) % TWO32, read := s.read + [s.reader.b], reader := RIdle)
    case LoadWpos(b) => s.(writer := WPos(b, s.wpos))
    case LoadRposAndTest =>
      s.(writer := if Sub32(s.writer.w, s.rpos) == BY2PIPE then WIdle else WTested(s.writer.b))
    case LoadWposAgain => s.(writer := WIndex(s.writer.b, s.wpos))
    case StoreByte => s.(buf := s.buf[s.writer.w % BY2PIPE := s.writer.b], writer := WStored(s.writer.b))
    case LoadWposToBump => s.(writer := WBump(s.writer.b, s.wpos))
    case StoreWpos => s.(wpos := (s.writer.w + 1) % TWO32, written := s.written + [s.writer.b], writer := WIdle)
  }

  /** The bytes not yet read lie in their ring slots. */
  predicate Outstanding(s: Pipe)
    requires |s.buf| == BY2PIPE
  {
    forall i :: |s.read| <= i < |s.written| ==> s.buf[i % BY2PIPE] == s.written[i]
  }

  predicate ReaderOk(s: Pipe) {
    match s.reader
    case RIdle => true
    case RPos(r) => r == s.rpos
    case RTested => |s.read| < |s.written|
    case RIndex(r) => r == s.rpos && |s.read| < |s.written|
    case RByte(b) => |s.read| < |s.written| && b == s.written[|s.read|]
    case RBump(b, r) => r == s.rpos && |s.read| < |s.written| && b == s.written[|s.read|]
  }

  predicate WriterOk(s: Pipe)
    requires |s.buf| == BY2PIPE
  {
    match s.writer
    case WIdle => true
    case WPos(_, w) => w == s.wpos
    case WTested(_) => |s.written| < |s.read| + BY2PIPE
    case WIndex(_, w) => w == s.wpos && |s.written| < |s.read| + BY2PIPE
    case WStored(b) => |s.written| < |s.read| + BY2PIPE && s.buf[|s.written| % BY2PIPE] == b
    case WBump(b, w) => w == s.wpos && |s.written| < |s.read| + BY2PIPE && s.buf[|s.written| % BY2PIPE] == b
  }

  predicate Inv(s: Pipe) {
    && |s.buf| == BY2PIPE && s.rpos == |s.read| % TWO32 && s.wpos == |s.written| % TWO32
    && |s.read| <= |s.written| <= |s.read| + BY2PIPE && s.read <= s.written
    && Outstanding(s) && ReaderOk(s) && WriterOk(s)
  }

  /** Positions that wrap at 2^32 still index the ring in step with the byte count, because 32 divides 2^32. */
  lemma RingIndex(n: nat)
    ensures n % TWO32 % BY2PIPE == n % BY2PIPE
  {
    assert n == n / TWO32 * TWO32 + n % TWO32;
    assert TWO32 == 0x800_0000 * BY2PIPE;
  }

  lemma Wrap(n: nat)
    ensures (n % TWO32 + 1) % TWO32 == (n + 1) % TWO32
  {
  }

  /** Counts at most 32 apart are told apart by their 32-bit images, and so is the distance 32. */
  lemma Distance(a: nat, b: nat)
    requires a <= b <= a + BY2PIPE
    ensures Sub32(b % TWO32, a % TWO32) == b - a
    ensures a % TWO32 == b % TWO32 <==> a == b
  {
    var d := b - a;
    assert b / TWO32 == a / TWO32 || b / TWO32 == a / TWO32 + 1;
    assert b % TWO32 - a % TWO32 == d || b % TWO32 - a % TWO32 == d - TWO32;
  }

  /** Ring slots of distinct outstanding bytes are distinct. */
  lemma SlotsApart(i: nat, j: nat)
    requires i < j < i + BY2PIPE
    ensures i % BY2PIPE != j % BY2PIPE
  {
  }

  lemma {:induction false} StepInv(s: Pipe, l: Step)
    requires Inv(s) && Enabled(s, l)
    ensures Inv(Next(s, l))
  {
    match l
    case LoadRpos =>
    case LoadWposAndTest => Distance(|s.read|, |s.written|);
    case LoadRposAgain =>
    case LoadByte => RingIndex(|s.read|);
    case LoadRposToBump =>
    case StoreRpos => StoreRposInv(s);
    case LoadWpos(_) =>
    case LoadRposAndTest => Distance(|s.read|, |s.written|);
    case LoadWposAgain =>
    case StoreByte => StoreByteInv(s);
    case LoadWposToBump =>
    case StoreWpos => StoreWposInv(s);
  }

  lemma StoreRposInv(s: Pipe)
    requires Inv(s) && Enabled(s, StoreRpos)
    ensures Inv(Next(s, StoreRpos))
  {
    Wrap(|s.read|);
    assert s.written[..|s.read| + 1] == s.read + [s.reader.b];
  }

  /** The byte lands in a ring slot that holds nothing unread. */
  lemma StoreByteInv(s: Pipe)
    requires Inv(s) && Enabled(s, StoreByte)
    ensures Inv(Next(s, StoreByte))
  {
    var s', n := Next(s, StoreByte), |s.written|;
    RingIndex(n);
    forall i | |s.read| <= i < n ensures s'.buf[i % BY2PIPE] == s.written[i] {
      SlotsApart(i, n);
    }
    if s.reader.RByte? || s.reader.RBump? {
      assert s'.written == s.written;
    }
  }

  lemma StoreWposInv(s: Pipe)
    requires Inv(s) && Enabled(s, StoreWpos)
    ensures Inv(Next(s, StoreWpos))
  {
    Wrap(|s.written|);
    var s' := Next(s, StoreWpos);
    forall i | |s'.read| <= i < |s'.written| ensures s'.buf[i % BY2PIPE] == s'.written[i] {
    }
  }

  predicate CanRun(s: Pipe, ls: seq<Step>)
    decreases |ls|
  {
    ls == [] || (Enabled(s, ls[0]) && CanRun(Next(s, ls[0]), ls[1..]))
  }

  function RunOf(s: Pipe, ls: seq<Step>): Pipe
    requires CanRun(s, ls)
    decreases |ls|
  {
    if ls == [] then s else RunOf(Next(s, ls[0]), ls[1..])
  }

  /** pipe() leaves both positions at 0 on a zeroed page. */
  predicate Fresh(s: Pipe) {
    && s.rpos == s.wpos == 0 && |s.buf| == BY2PIPE && s.written == s.read == []
    && s.reader == RIdle && s.writer == WIdle
  }

  lemma {:induction false} RunInv(s: Pipe, ls: seq<Step>)
    requires Inv(s) && CanRun(s, ls)
    ensures Inv(RunOf(s, ls))
    decreases |ls|
  {
    if ls != [] {
      StepInv(s, ls[0]);
      RunInv(Next(s, ls[0]), ls[1..]);
    }
  }

  /** Whatever the interleaving and however often the positions wrap, the reader gets the writer's bytes in order,
      and at most 32 of them are under way. */
  lemma Fifo(s: Pipe, ls: seq<Step>)
    requires Fresh(s) && CanRun(s, ls)
    ensures var t := RunOf(s, ls); t.read <= t.written && |t.written| <= |t.read| + BY2PIPE
  {
    RunInv(s, ls);
  }

  /** No byte is overwritten before it is read. */
  lemma NoOverwrite(s: Pipe, i: nat)
    requires Inv(s) && Enabled(s, StoreByte) && |s.read| <= i < |s.written|
    ensures Next(s, StoreByte).buf[i % BY2PIPE] == s.buf[i % BY2PIPE]
  {
    RingIndex(|s.written|);
    SlotsApart(i, |s.written|);
  }

  // ---- the loops get on

  /** The emptiness test is right, whatever the writer is doing: the reader goes on exactly when a byte is there. */
  lemma EmptyTest(s: Pipe)
    requires Inv(s) && Enabled(s, LoadWposAndTest)
    ensures Next(s, LoadWposAndTest) == s.(reader := if |s.read| == |s.written| then RIdle else RTested)
  {
    Distance(|s.read|, |s.written|);
  }

  /** And the fullness test: the writer goes on, with its byte, exactly when fewer than 32 bytes are under way. */
  lemma FullTest(s: Pipe)
    requires Inv(s) && Enabled(s, LoadRposAndTest)
    ensures Next(s, LoadRposAndTest) == s.(writer := if |s.written| == |s.read| + 32 then WIdle else WTested(s.writer.b))
  {
    Distance(|s.read|, |s.written|);
  }

  /** What every step does to the bytes: the reader's last step takes the next unread one, the writer's last step adds the
      one it set out with, and nothing else moves a byte or changes the writer's. */
  lemma StepBytes(s: Pipe, l: Step)
    requires Inv(s) && Enabled(s, l)
    ensures var t := Next(s, l);
      && (l.StoreRpos? ==> |s.read| < |s.written| && t.read == s.read + [s.written[|s.read|]] && t.reader == RIdle)
      && (!l.StoreRpos? ==> t.read == s.read)
      && (l.StoreWpos? ==> t.written == s.written + [s.writer.b] && t.writer == WIdle)
      && (!l.StoreWpos? ==> t.written == s.written)
      && (l.LoadWpos? ==> !t.writer.WIdle? && t.writer.b == l.b)
      && (!l.LoadWpos? && !s.writer.WIdle? && !t.writer.WIdle? ==> t.writer.b == s.writer.b)
  {
  }

  function ReadSteps(): seq<Step> {
    [LoadRpos, LoadWposAndTest, LoadRposAgain, LoadByte, LoadRposToBump, StoreRpos]
  }

  function WriteSteps(b: Byte): seq<Step> {
    [LoadWpos(b), LoadRposAndTest, LoadWposAgain, StoreByte, LoadWposToBump, StoreWpos]
  }

  lemma OneStep(s: Pipe, l: Step, ls: seq<Step>)
    requires Enabled(s, l) && CanRun(Next(s, l), ls)
    ensures CanRun(s, [l] + ls) && RunOf(s, [l] + ls) == RunOf(Next(s, l), ls)
  {
    hide Enabled, Next;
    assert ([l] + ls)[1..] == ls;
  }

  lemma SixSteps(s: Pipe, ls: seq<Step>)
    requires |ls| == 6 && Enabled(s, ls[0])
    requires var s1 := Next(s, ls[0]);
             && Enabled(s1, ls[1])
             && var s2 := Next(s1, ls[1]);
                && Enabled(s2, ls[2])
                && var s3 := Next(s2, ls[2]);
                   && Enabled(s3, ls[3])
                   && var s4 := Next(s3, ls[3]);
                      Enabled(s4, ls[4]) && Enabled(Next(s4, ls[4]), ls[5])
    ensures CanRun(s, ls)
    ensures var s3 := Next(Next(Next(s, ls[0]), ls[1]), ls[2]);
            RunOf(s, ls) == Next(Next(Next(s3, ls[3]), ls[4]), ls[5])
  {
    hide Enabled, Next;
    var s1 := Next(s, ls[0]);
    var s2 := Next(s1, ls[1]);
    var s3 := Next(s2, ls[2]);
    var s4 := Next(s3, ls[3]);
    var s5 := Next(s4, ls[4]);
    OneStep(s5, ls[5], []);
    OneStep(s4, ls[4], [ls[5]]);
    OneStep(s3, ls[3], [ls[4], ls[5]]);
    OneStep(s2, ls[2], [ls[3], ls[4], ls[5]]);
    OneStep(s1, ls[1], [ls[2], ls[3], ls[4], ls[5]]);
    OneStep(s, ls[0], [ls[1], ls[2], ls[3], ls[4], ls[5]]);
    assert [ls[5]] + [] == [ls[5]] && [ls[4]] + [ls[5]] == [ls[4], ls[5]];
    assert [ls[3]] + [ls[4], ls[5]] == [ls[3], ls[4], ls[5]];
    assert [ls[2]] + [ls[3], ls[4], ls[5]] == [ls[2], ls[3], ls[4], ls[5]];
    assert [ls[1]] + [ls[2], ls[3], ls[4], ls[5]] == [ls[1], ls[2], ls[3], ls[4], ls[5]];
    assert ls == [ls[0]] + [ls[1], ls[2], ls[3], ls[4], ls[5]];
  }

  /** A turn of pipe_read's loop with a byte in the pipe takes exactly the next one. */
  lemma ReadTurn(s: Pipe)
    requires Inv(s) && s.reader == RIdle && |s.read| < |s.written|
    ensures CanRun(s, ReadSteps())
    ensures var t := RunOf(s, ReadSteps());
            && t.read == s.read + [s.written[|s.read|]] && t.written == s.written && t.reader == RIdle
            && t.writer == s.writer && t.buf == s.buf && t.wpos == s.wpos
  {
    Distance(|s.read|, |s.written|);
    RingIndex(|s.read|);
    SixSteps(s, ReadSteps());
  }

  /** A turn of pipe_write's loop with room in the pipe puts exactly its byte behind the others. */
  lemma WriteTurn(s: Pipe, b: Byte)
    requires Inv(s) && s.writer == WIdle && |s.written| < |s.read| + 32
    ensures CanRun(s, WriteSteps(b))
    ensures var t := RunOf(s, WriteSteps(b));
            t.written == s.written + [b] && t.read == s.read && t.writer == WIdle && t.reader == s.reader && t.rpos == s.rpos
  {
    Distance(|s.read|, |s.written|);
    SixSteps(s, WriteSteps(b));
  }
}
