/**
  Short Kermit transfers whose damage is found and answered, and which lose or repeat a byte all the same.
 */
module KermitWitnesses {
  import opened Words
  import opened KermitCoding
  import opened KermitReceiver
  import opened KermitPackets
  import opened KermitCopies
  import opened KermitRuns
  import opened KermitLosses

  const A := Packet(DATA_TYPE, [65])
  const BREAK := Packet(BREAK_TYPE, [])
  const INTACT := Good([], false)

  /** A copy of `A` whose sequence character arrives as number 5, with the check character of packet 0. */
  const NUMBERED_FIVE := Late([], 36, 5, [DATA_TYPE, 65, 44, END_CHAR])

  /** A copy of the break packet 1 whose sequence character arrives as number 0. */
  const NUMBERED_ZERO := Late([], 35, 0, [BREAK_TYPE, 40, END_CHAR])

  const NO_LENGTH := Early([], [0], [])

  lemma BadStep(phase: Phase, next: Phase, s: seq<Byte>)
    requires Reading(phase) && Reading(next) && s != [] && Control(phase, s[0]) == Go(next) && FoundBad(next, s[1..])
    ensures FoundBad(phase, s)
  {
    hide Control;
  }

  lemma BadEnd(phase: Phase, c: Byte)
    requires Reading(phase) && Control(phase, c) == Reject
    ensures FoundBad(phase, [c, END_CHAR])
  {
    hide Control;
    assert [c, END_CHAR][1..] == [END_CHAR];
  }

  lemma FiveFound()
    ensures CopyOk(A, NUMBERED_FIVE)
  {
    var tail: seq<Byte> := [DATA_TYPE, 65, 44, END_CHAR];
    assert tail[1..] == [65, 44, END_CHAR] && tail[1..][1..] == [44, END_CHAR];
    BadEnd(Body(206, DATA_TYPE, 1), 44);
    BadStep(Body(141, DATA_TYPE, 2), Body(206, DATA_TYPE, 1), tail[1..]);
    BadStep(Type(73, 3), Body(141, DATA_TYPE, 2), tail);
    hide FoundBad;
  }

  lemma ZeroFound()
    ensures CopyOk(BREAK, NUMBERED_ZERO)
  {
    var tail: seq<Byte> := [BREAK_TYPE, 40, END_CHAR];
    assert tail[1..] == [40, END_CHAR];
    BadEnd(Body(133, BREAK_TYPE, 1), 40);
    BadStep(Type(67, 2), Body(133, BREAK_TYPE, 1), tail);
    hide FoundBad;
  }

  lemma CopiesFound()
    ensures CopyOk(A, INTACT) && CopyOk(BREAK, INTACT) && CopyOk(A, NO_LENGTH) && CopyOk(BREAK, NO_LENGTH)
    ensures CopyOk(A, NUMBERED_FIVE) && CopyOk(BREAK, NUMBERED_ZERO)
  {
    FiveFound();
    ZeroFound();
    hide FoundBad;
  }

  lemma Decodes()
    ensures Decoded(K_ESCAPE, A) == [65] && Decoded(K_ESCAPE, BREAK) == [] && !Unquote(K_ESCAPE, false, A.data).1
  {
    OneByteDecodes(K_ESCAPE, 65);
  }

  /** Two packets: the byte, and the break packet. */
  function Two(first: seq<Copy>, second: seq<Copy>): seq<Transmission> {
    [Transmission(0, A, first), Transmission(1, BREAK, second)]
  }

  lemma TwoIsTransfer(first: seq<Copy>, second: seq<Copy>)
    requires first != [] && second != [] && CopiesOk(0, A, first) && CopiesOk(1, BREAK, second)
    ensures Transfer(Two(first, second)) && PrefixOf(Two(first, second)) == K_ESCAPE
  {
    var run := Two(first, second);
    Decodes();
    hide CopiesOk, Unquote;
    assert TransmissionOk(run[0]) && TransmissionOk(run[1]);
    assert run[1..] == [run[1]];
    assert RunOk(0, [run[1]]);
  }

  /** What two packets leave and what they should leave. */
  lemma TwoLeave(start: nat, mem: map<nat, Byte>, first: seq<Copy>, second: seq<Copy>)
    requires first != [] && second != [] && CopiesOk(0, A, first) && CopiesOk(1, BREAK, second)
    ensures Ideal(K_ESCAPE, NOTHING, Two(first, second)).bytes == [65]
    ensures Loaded(start, Feed(Begin(start, mem), Stream(Two(first, second))),
                   Copied([65], Times(Two(first, second), 0)))
  {
    hide CopiesOk, Feed, Loaded, Times, RunOk, Ideal, Stream;
    var run := Two(first, second);
    TwoIsTransfer(first, second);
    EachAsOftenAsItCounts(start, mem, run);
    Decodes();
    assert run[1..] == [run[1]] && [run[1]][1..] == [];
    CopiedNothing(Times([run[1]], 0));
    hide Copied, Decoded;
    var c := Copied([65], Times(run, 0));
    assert Delivered(K_ESCAPE, [run[1]]) == [] + [] == [];
    assert Delivered(K_ESCAPE, run) == c + [] == c;
    assert Sent(K_ESCAPE, [run[1]]) == [] + [] == [];
    assert Sent(K_ESCAPE, run) == [65] + [] == [65];
  }

  /** The break packet is first seen with a damaged length: the byte is acknowledged and then lost, k_recv returns 0. */
  lemma EarlyDamageLosesData(start: nat, mem: map<nat, Byte>)
    ensures var run := Two([INTACT], [NO_LENGTH, INTACT]);
            && Transfer(run) && Ideal(K_ESCAPE, NOTHING, run).bytes == [65]
            && Loaded(start, Feed(Begin(start, mem), Stream(run)), [])
  {
    CopiesFound();
    hide CopyOk, Feed, Stream, Loaded, Ideal, Transfer, PrefixOf;
    assert CopiesOk(0, A, [INTACT]) && CopiesOk(1, BREAK, [NO_LENGTH, INTACT]);
    TwoIsTransfer([INTACT], [NO_LENGTH, INTACT]);
    TwoLeave(start, mem, [INTACT], [NO_LENGTH, INTACT]);
    assert Repeats(0, [INTACT], false) == 0;
  }

  /** The same happens when the first copy of the break packet bears the number of the packet before. */
  lemma MisnumberedLosesData(start: nat, mem: map<nat, Byte>)
    ensures var run := Two([INTACT], [NUMBERED_ZERO, INTACT]);
            && Transfer(run) && Ideal(K_ESCAPE, NOTHING, run).bytes == [65]
            && Loaded(start, Feed(Begin(start, mem), Stream(run)), [])
  {
    CopiesFound();
    hide CopyOk, Feed, Stream, Loaded, Ideal, Transfer, PrefixOf;
    assert CopiesOk(0, A, [INTACT]) && CopiesOk(1, BREAK, [NUMBERED_ZERO, INTACT]);
    TwoIsTransfer([INTACT], [NUMBERED_ZERO, INTACT]);
    TwoLeave(start, mem, [INTACT], [NUMBERED_ZERO, INTACT]);
    assert Repeats(0, [INTACT], false) == 0;
  }

  lemma RepeatedOnce(lead: seq<Copy>)
    requires lead == [] || lead == [NO_LENGTH]
    ensures Repeats(0, lead + [INTACT, NUMBERED_FIVE, INTACT], false) == 1
    ensures Repeats(1, lead + [INTACT, NUMBERED_FIVE, INTACT], false) == 1
  {
    var copies := [INTACT, NUMBERED_FIVE, INTACT];
    assert copies[1..] == [NUMBERED_FIVE, INTACT] && [NUMBERED_FIVE, INTACT][1..] == [INTACT] && [INTACT][1..] == [];
    forall n: nat | n <= 1
      ensures Repeats(n, copies, false) == 1
    {
      assert Repeats(n, [INTACT], false) == 0;
      assert Repeats(n, [NUMBERED_FIVE, INTACT], true) == 1;
    }
    assert lead == [] ==> lead + copies == copies;
    assert lead == [NO_LENGTH] ==> (lead + copies)[1..] == copies && (lead + copies)[0] == NO_LENGTH;
  }

  /**
    A repeat of packet 0 that arrives as number 5 makes the next copy of packet 0 count again: the byte
    is there twice.
   */
  lemma MisnumberedRepeatsData(start: nat, mem: map<nat, Byte>)
    ensures var run := Two([INTACT, NUMBERED_FIVE, INTACT], [INTACT]);
            && Transfer(run) && Ideal(K_ESCAPE, NOTHING, run).bytes == [65]
            && Loaded(start, Feed(Begin(start, mem), Stream(run)), [65, 65])
  {
    CopiesFound();
    hide CopyOk, Feed, Stream, Loaded, Ideal, Transfer, PrefixOf;
    var copies := [INTACT, NUMBERED_FIVE, INTACT];
    assert CopiesOk(0, A, copies) && CopiesOk(1, BREAK, [INTACT]);
    TwoIsTransfer(copies, [INTACT]);
    TwoLeave(start, mem, copies, [INTACT]);
    assert [] + copies == copies;
    RepeatedOnce([]);
    assert Times(Two(copies, [INTACT]), 0) == 2;
    CopiedTwice();
  }

  lemma CopiedTwice()
    ensures Copied([65], 2) == [65, 65]
  {
    assert Copied([65], 0) == [];
    assert Copied([65], 1) == [] + [65] == [65];
    assert Copied([65], 2) == [65] + [65];
  }

  /** The byte of packet 0 is lost and the equal byte of packet 1 is there twice. */
  const SWAPPED: seq<Transmission> :=
    [Transmission(0, A, [INTACT]),
     Transmission(1, A, [NO_LENGTH, INTACT, NUMBERED_FIVE, INTACT]),
     Transmission(2, BREAK, [INTACT])]

  lemma SwappedIsTransfer()
    ensures Transfer(SWAPPED) && PrefixOf(SWAPPED) == K_ESCAPE
  {
    CopiesFound();
    Decodes();
    hide CopyOk, Unquote;
    assert TransmissionOk(SWAPPED[0]) && TransmissionOk(SWAPPED[1]) && TransmissionOk(SWAPPED[2]);
    assert SWAPPED[1..] == [SWAPPED[1], SWAPPED[2]] && SWAPPED[1..][1..] == [SWAPPED[2]];
    assert RunOk(1, [SWAPPED[2]]);
    assert RunOk(0, SWAPPED[1..]);
  }

  lemma SwappedTimes()
    ensures Times(SWAPPED, 0) == 0 && Times(SWAPPED, 1) == 2
  {
    assert [NO_LENGTH] + [INTACT, NUMBERED_FIVE, INTACT] == [NO_LENGTH, INTACT, NUMBERED_FIVE, INTACT];
    RepeatedOnce([NO_LENGTH]);
    assert Repeats(0, [INTACT], false) == 0;
  }

  /**
    A loss and a repetition of equal bytes cannot be told from a good transfer: exact, though packets do
    not count once.
   */
  lemma LossHidesRepetition(start: nat, mem: map<nat, Byte>)
    ensures Transfer(SWAPPED) && !EachOnce(K_ESCAPE, SWAPPED) && Exact(start, mem, SWAPPED)
  {
    hide Feed, Loaded, RunOk, Ideal, Stream, CopyOk, Repeats, LostBy;
    SwappedIsTransfer();
    SwappedTimes();
    Decodes();
    EachAsOftenAsItCounts(start, mem, SWAPPED);
    var last := SWAPPED[1..][1..];
    assert last == [SWAPPED[2]] && last[1..] == [];
    TimesTail(SWAPPED, 0);
    CopiedNothing(Times(last, 0));
    hide Times, Decoded;
    CopiedTwice();
    assert Copied([65], 0) == [];
    hide Copied;
    assert Delivered(K_ESCAPE, last) == [] + [] == [];
    assert Delivered(K_ESCAPE, SWAPPED[1..]) == [65, 65] + [] == [65, 65];
    assert Delivered(K_ESCAPE, SWAPPED) == [] + [65, 65] == [65, 65];
    assert Sent(K_ESCAPE, last) == [] + [] == [];
    assert Sent(K_ESCAPE, SWAPPED[1..]) == [65] + [] == [65];
    assert Sent(K_ESCAPE, SWAPPED) == [65] + [65] == [65, 65];
  }
}
