/** The keyboard ring (src/drivers/keyboard.c): an interrupt handler that puts characters in and a
    foreground reader that takes them out, interleaved statement by statement. */
module Keyboards {
  import opened Bytes

  const BUFFER_SIZE := 256
  const LSHIFT: Byte := 0x2A
  const RSHIFT: Byte := 0x36

  // ----- Scancodes -----

  const PLAIN :=
    "\0\U{1B}1234567890-=\U{8}" + "\tqwertyuiop[]\n" + "\0asdfghjkl;'`\0" + "\\zxcvbnm,./\0*\0 "
  const SHIFTED :=
    "\0\U{1B}!@#$%^&*()_+\U{8}" + "\tQWERTYUIOP{}\n" + "\0ASDFGHJKL:\"~\0" + "|ZXCVBNM<>?\0*\0 "

  /** The character of a key, 0 for none. Behind the two tables there are zeros up to the last entry. */
  function KeyOf(scancode: Byte, shift: bool): Byte
  {
    if scancode < 58 then CharOf((if shift then SHIFTED else PLAIN)[scancode])
    else if scancode == 122 then 0x7F else 0
  }

  function CharOf(c: char): Byte
  {
    c as int % 256
  }

  /** What a scancode does before the buffer is touched: the new shift state and the character, if any. */
  function Decode(scancode: Byte, shift: bool): (bool, Byte)
  {
    if scancode >= 0x80 then (shift && scancode - 0x80 != LSHIFT && scancode - 0x80 != RSHIFT, 0)
    else if scancode == LSHIFT || scancode == RSHIFT then (true, 0)
    else (shift, KeyOf(scancode, shift))
  }

  // ----- What the caps of the keys show -----

  /** The capital of a lower-case letter. */
  function Capital(c: char): Byte
    requires 'a' <= c <= 'z'
  {
    'A' as int + (c as int - 'a' as int)
  }

  /** A letter key of a row. */
  function Letter(row: string, i: int, shift: bool): Byte
    requires 0 <= i < |row| && 'a' <= row[i] <= 'z'
  {
    if shift then Capital(row[i]) else CharOf(row[i])
  }

  /** A key of a row that shows two characters. */
  function Sign(plain: string, shifted: string, i: int, shift: bool): Byte
    requires 0 <= i < |plain| == |shifted|
  {
    CharOf((if shift then shifted else plain)[i])
  }

  /** The characters of a US keyboard, row by row from the scancode of the first key on; the keys behind
      them do not depend on shift. */
  function CapOf(scancode: Byte, shift: bool): Byte
  {
    if 0x02 <= scancode <= 0x0B then Sign("1234567890", "!@#$%^&*()", scancode - 0x02, shift)
    else if 0x0C <= scancode <= 0x0D then Sign("-=", "_+", scancode - 0x0C, shift)
    else if 0x10 <= scancode <= 0x19 then Letter("qwertyuiop", scancode - 0x10, shift)
    else if 0x1A <= scancode <= 0x1B then Sign("[]", "{}", scancode - 0x1A, shift)
    else if 0x1E <= scancode <= 0x26 then Letter("asdfghjkl", scancode - 0x1E, shift)
    else if 0x27 <= scancode <= 0x29 then Sign(";'`", ":\"~", scancode - 0x27, shift)
    else if scancode == 0x2B then (if shift then '|' as int else '\\' as int)
    else if 0x2C <= scancode <= 0x32 then Letter("zxcvbnm", scancode - 0x2C, shift)
    else if 0x33 <= scancode <= 0x35 then Sign(",./", "<>?", scancode - 0x33, shift)
    else
      match scancode
      case 0x01 => 27
      case 0x0E => 8
      case 0x0F => 9
      case 0x1C => 10
      case 0x37 => 42
      case 0x39 => 32
      case 0x7A => 127
      case _ => 0
  }

  lemma CapsTop(scancode: Byte, shift: bool)
    requires 0 <= scancode < 12
    ensures KeyOf(scancode, shift) == CapOf(scancode, shift)
  {
  }

  lemma CapsDigits(scancode: Byte, shift: bool)
    requires 12 <= scancode < 16
    ensures KeyOf(scancode, shift) == CapOf(scancode, shift)
  {
  }

  lemma CapsUpper(scancode: Byte, shift: bool)
    requires 16 <= scancode < 26
    ensures KeyOf(scancode, shift) == CapOf(scancode, shift)
  {
  }

  lemma CapsBrackets(scancode: Byte, shift: bool)
    requires 26 <= scancode < 30
    ensures KeyOf(scancode, shift) == CapOf(scancode, shift)
  {
  }

  lemma CapsHome(scancode: Byte, shift: bool)
    requires 30 <= scancode < 37
    ensures KeyOf(scancode, shift) == CapOf(scancode, shift)
  {
  }

  lemma CapsHomeEnd(scancode: Byte, shift: bool)
    requires 37 <= scancode < 43
    ensures KeyOf(scancode, shift) == CapOf(scancode, shift)
  {
  }

  lemma CapsLower(scancode: Byte, shift: bool)
    requires 43 <= scancode < 51
    ensures KeyOf(scancode, shift) == CapOf(scancode, shift)
  {
  }

  lemma CapsLast(scancode: Byte, shift: bool)
    requires 51 <= scancode < 58
    ensures KeyOf(scancode, shift) == CapOf(scancode, shift)
  {
  }

  /** The tables of the driver hold what the caps show. */
  lemma KeyOfCap(scancode: Byte, shift: bool)
    requires scancode < 0x80
    ensures KeyOf(scancode, shift) == CapOf(scancode, shift)
  {
    if scancode < 12 { CapsTop(scancode, shift); }
    else if scancode < 16 { CapsDigits(scancode, shift); }
    else if scancode < 26 { CapsUpper(scancode, shift); }
    else if scancode < 30 { CapsBrackets(scancode, shift); }
    else if scancode < 37 { CapsHome(scancode, shift); }
    else if scancode < 43 { CapsHomeEnd(scancode, shift); }
    else if scancode < 51 { CapsLower(scancode, shift); }
    else if scancode < 58 { CapsLast(scancode, shift); }
  }

  // ----- What is typed -----

  predicate ShiftPressed(scancode: Byte)
  {
    scancode == 0x2A || scancode == 0x36
  }

  predicate ShiftReleased(scancode: Byte)
  {
    scancode == 0xAA || scancode == 0xB6
  }

  /** The last event of a shift key was a press. */
  ghost predicate ShiftDown(scancodes: seq<Byte>)
  {
    exists i ::
      && 0 <= i < |scancodes| && ShiftPressed(scancodes[i])
      && forall j :: i < j < |scancodes| ==> !ShiftReleased(scancodes[j])
  }

  /** The character of one more scancode, if it is the press of a key that has one. */
  ghost function TypedBy(before: seq<Byte>, scancode: Byte): seq<Byte>
  {
    if scancode >= 0x80 || ShiftPressed(scancode) || CapOf(scancode, ShiftDown(before)) == 0 then []
    else [CapOf(scancode, ShiftDown(before))]
  }

  /** The text that these scancodes type. */
  ghost function TextOf(scancodes: seq<Byte>): seq<Byte>
  {
    if scancodes == [] then []
    else
      var n := |scancodes| - 1;
      TextOf(scancodes[..n]) + TypedBy(scancodes[..n], scancodes[n])
  }

  lemma ShiftStays(before: seq<Byte>, scancode: Byte)
    requires ShiftDown(before) && !ShiftReleased(scancode)
    ensures ShiftDown(before + [scancode])
  {
    var after := before + [scancode];
    var i :| 0 <= i < |before| && ShiftPressed(before[i]) && forall j :: i < j < |before| ==> !ShiftReleased(before[j]);
    assert after[i] == before[i];
    assert forall j :: i < j < |after| ==> after[j] == if j < |before| then before[j] else scancode;
  }

  lemma ShiftWas(before: seq<Byte>, scancode: Byte)
    requires ShiftDown(before + [scancode]) && !ShiftPressed(scancode)
    ensures ShiftDown(before) && !ShiftReleased(scancode)
  {
    var after := before + [scancode];
    var i :| 0 <= i < |after| && ShiftPressed(after[i]) && forall j :: i < j < |after| ==> !ShiftReleased(after[j]);
    assert after[|before|] == scancode && after[i] == before[i];
    assert forall j :: i < j < |before| ==> before[j] == after[j];
  }

  lemma ShiftAfter(before: seq<Byte>, scancode: Byte)
    ensures ShiftDown(before + [scancode]) <==>
            ShiftPressed(scancode) || (ShiftDown(before) && !ShiftReleased(scancode))
  {
    var after := before + [scancode];
    assert after[|before|] == scancode;
    if ShiftDown(before) && !ShiftReleased(scancode) {
      ShiftStays(before, scancode);
    }
    if ShiftDown(after) && !ShiftPressed(scancode) {
      ShiftWas(before, scancode);
    }
  }

  /** One scancode: the shift state and the character. */
  lemma DecodeIs(before: seq<Byte>, scancode: Byte)
    ensures var (shift, c) := Decode(scancode, ShiftDown(before));
            && (shift <==> ShiftDown(before + [scancode]))
            && TypedBy(before, scancode) == if c == 0 then [] else [c]
  {
    ShiftAfter(before, scancode);
    if scancode < 0x80 {
      KeyOfCap(scancode, ShiftDown(before));
    }
    hide ShiftDown, CapOf, KeyOf;
  }

  // ----- The two parties -----

  /** Where the handler is: outside, with a character to check, past the check, past the store. */
  datatype Handler = Outside | Chosen(c: Byte) | Checked(c: Byte, next: nat) | Stored(c: Byte, next: nat)

  /** Where the reader is: at its test, past the test, or holding a fetched character. */
  datatype Reader = Testing | Fetching | Advancing(c: Byte)

  /** The shared variables, both program counters, and what went in and came out so far. */
  datatype Ring = Ring(buffer: seq<Byte>, head: nat, tail: nat, shift: bool, handler: Handler, reader: Reader,
                       accepted: seq<Byte>, consumed: seq<Byte>)

  /** One statement of either party. */
  datatype Event = Press(scancode: Byte) | Check | Store | Publish | Test | Fetch | Advance

  function Next(i: nat): (r: nat)
    ensures r < BUFFER_SIZE
  {
    (i + 1) % BUFFER_SIZE
  }

  predicate Enabled(k: Ring, e: Event)
  {
    match e
    case Press(_) => k.handler.Outside?
    case Check => k.handler.Chosen?
    case Store => k.handler.Checked?
    case Publish => k.handler.Stored?
    case Test => k.reader.Testing?
    case Fetch => k.reader.Fetching?
    case Advance => k.reader.Advancing?
  }

  predicate Shaped(k: Ring)
  {
    |k.buffer| == BUFFER_SIZE && k.head < BUFFER_SIZE && k.tail < BUFFER_SIZE
  }

  function Apply(k: Ring, e: Event): (r: Ring)
    requires Shaped(k) && Enabled(k, e)
  {
    match e
    case Press(scancode) =>
      var (shift, c) := Decode(scancode, k.shift);
      k.(shift := shift, handler := if c == 0 then Outside else Chosen(c))
    case Check =>
      var next := Next(k.head);
      k.(handler := if next == k.tail then Outside else Checked(k.handler.c, next))
    case Store => k.(buffer := k.buffer[k.head := k.handler.c], handler := Stored(k.handler.c, k.handler.next))
    case Publish => k.(head := k.handler.next, handler := Outside, accepted := k.accepted + [k.handler.c])
    case Test => if k.head == k.tail then k else k.(reader := Fetching)
    case Fetch => k.(reader := Advancing(k.buffer[k.tail]))
    case Advance => k.(tail := Next(k.tail), reader := Testing, consumed := k.consumed + [k.reader.c])
  }

  // ----- The invariant -----

  /** The slot of the `j`-th pending character. */
  function Slot(tail: nat, j: nat): (r: nat)
    ensures r < BUFFER_SIZE
  {
    (tail + j) % BUFFER_SIZE
  }

  /** How many characters wait. */
  function Pending(k: Ring): int { |k.accepted| - |k.consumed| }

  /** Everything consumed was accepted, in order, and the buffer holds the rest from the tail on. */
  ghost predicate InOrder(k: Ring)
    requires Shaped(k)
  {
    && 0 <= Pending(k) < BUFFER_SIZE
    && k.consumed == k.accepted[..|k.consumed|]
    && k.head == Slot(k.tail, Pending(k))
    && forall j :: 0 <= j < Pending(k) ==> k.buffer[Slot(k.tail, j)] == k.accepted[|k.consumed| + j]
  }

  /** Past its check the handler still has a free slot, and past its store the character is in it. */
  ghost predicate HandlerOk(k: Ring)
    requires Shaped(k)
  {
    match k.handler
    case Outside => true
    case Chosen(c) => c != 0
    case Checked(c, next) => c != 0 && next == Next(k.head) && Pending(k) < BUFFER_SIZE - 1
    case Stored(c, next) => c != 0 && next == Next(k.head) && Pending(k) < BUFFER_SIZE - 1 && k.buffer[k.head] == c
  }

  /** Past its test the reader has a character, and past its fetch it holds the oldest one. */
  ghost predicate ReaderOk(k: Ring)
    requires Shaped(k)
  {
    match k.reader
    case Testing => true
    case Fetching => Pending(k) > 0
    case Advancing(c) => Pending(k) > 0 && c == k.accepted[|k.consumed|]
  }

  ghost predicate Inv(k: Ring)
  {
    Shaped(k) && InOrder(k) && HandlerOk(k) && ReaderOk(k)
  }

  /** Different pending positions are different slots. */
  lemma SlotsDiffer(tail: nat, i: nat, j: nat)
    requires i < j < BUFFER_SIZE
    ensures Slot(tail, i) != Slot(tail, j)
  {
  }

  /** The head is on the tail exactly when nothing waits, and right behind it exactly when 255 wait. */
  lemma FullAndEmpty(k: Ring)
    requires Shaped(k) && InOrder(k)
    ensures k.head == k.tail <==> Pending(k) == 0
    ensures Next(k.head) == k.tail <==> Pending(k) == BUFFER_SIZE - 1
  {
  }

  /** The handler never stores into the slot the reader is about to fetch or has fetched. */
  lemma StoreIsClear(k: Ring)
    requires Inv(k) && k.handler.Checked? && !k.reader.Testing?
    ensures k.head != k.tail
  {
    FullAndEmpty(k);
  }

  lemma StoreKeeps(k: Ring)
    requires Inv(k) && k.handler.Checked?
    ensures Inv(Apply(k, Store))
  {
    var r := Apply(k, Store);
    forall j | 0 <= j < Pending(k)
      ensures r.buffer[Slot(r.tail, j)] == r.accepted[|r.consumed| + j]
    {
      SlotsDiffer(k.tail, j, Pending(k));
    }
  }

  lemma SlotNext(tail: nat, j: nat)
    ensures Slot(tail, j + 1) == Next(Slot(tail, j))
    ensures tail < BUFFER_SIZE ==> Slot(Next(tail), j) == Slot(tail, j + 1)
  {
    RemainderNext(tail + j);
    if tail < BUFFER_SIZE {
      var over := if tail + 1 == BUFFER_SIZE then 1 else 0;
      RemainderShift(tail + 1 + j, over);
    }
  }

  lemma RemainderNext(n: nat)
    ensures (n + 1) % BUFFER_SIZE == if n % BUFFER_SIZE == BUFFER_SIZE - 1 then 0 else n % BUFFER_SIZE + 1
  {
    var q, r := n / BUFFER_SIZE, n % BUFFER_SIZE;
    if r == BUFFER_SIZE - 1 {
      assert n + 1 == (q + 1) * BUFFER_SIZE;
    } else {
      assert n + 1 == q * BUFFER_SIZE + (r + 1);
    }
  }

  lemma RemainderShift(n: nat, k: nat)
    requires k <= 1 && k * BUFFER_SIZE <= n
    ensures (n - k * BUFFER_SIZE) % BUFFER_SIZE == n % BUFFER_SIZE
  {
  }

  lemma PublishKeeps(k: Ring)
    requires Inv(k) && k.handler.Stored?
    ensures Inv(Apply(k, Publish))
  {
    hide Slot, Next;
    var r := Apply(k, Publish);
    SlotNext(k.tail, Pending(k));
    assert r.accepted[..|r.consumed|] == k.accepted[..|k.consumed|];
  }

  lemma AdvanceKeeps(k: Ring)
    requires Inv(k) && k.reader.Advancing?
    ensures Inv(Apply(k, Advance))
  {
    hide Slot, Next;
    var r := Apply(k, Advance);
    SlotNext(k.tail, Pending(r));
    SlotNext(k.tail, 0);
    forall j | 0 <= j < Pending(r)
      ensures r.buffer[Slot(r.tail, j)] == r.accepted[|r.consumed| + j]
    {
      SlotNext(k.tail, j);
    }
    assert r.consumed == r.accepted[..|r.consumed|];
  }

  lemma OthersKeep(k: Ring, e: Event)
    requires Inv(k) && Enabled(k, e) && !e.Store? && !e.Publish? && !e.Advance?
    ensures Inv(Apply(k, e))
  {
    FullAndEmpty(k);
    assert Slot(k.tail, 0) == k.tail;
  }

  /** Every statement of either party keeps the invariant. */
  lemma StepKeeps(k: Ring, e: Event)
    requires Inv(k) && Enabled(k, e)
    ensures Inv(Apply(k, e))
  {
    hide Inv, Apply;
    match e {
      case Store => StoreKeeps(k);
      case Publish => PublishKeeps(k);
      case Advance => AdvanceKeeps(k);
      case _ => OthersKeep(k, e);
    }
  }

  // ----- Runs -----

  function Initial(): Ring
  {
    Ring(seq(BUFFER_SIZE, i => 0), 0, 0, false, Outside, Testing, [], [])
  }

  /** `ks` are the states between the statements of an interleaving. */
  ghost predicate Interleaving(ks: seq<Ring>, es: seq<Event>)
  {
    && |ks| == |es| + 1 && ks[0] == Initial()
    && forall i :: 0 <= i < |es| ==> Shaped(ks[i]) && Enabled(ks[i], es[i]) && ks[i + 1] == Apply(ks[i], es[i])
  }

  lemma InitialOk()
    ensures Inv(Initial())
  {
  }

  lemma {:induction false} RunKeeps(ks: seq<Ring>, es: seq<Event>, n: nat)
    requires Interleaving(ks, es) && n <= |es|
    ensures Inv(ks[n])
  {
    if n == 0 {
      InitialOk();
    } else {
      hide Inv, Enabled, Apply;
      RunKeeps(ks, es, n - 1);
      assert ks[n] == Apply(ks[n - 1], es[n - 1]);
      StepKeeps(ks[n - 1], es[n - 1]);
    }
  }

  /** Over every interleaving: what was consumed is a prefix of what was accepted, in order; at most 255
      characters wait; and no store hits the slot between the reader's test and its advance. */
  lemma EveryInterleaving(ks: seq<Ring>, es: seq<Event>, n: nat)
    requires Interleaving(ks, es) && n <= |es|
    ensures ks[n].consumed <= ks[n].accepted
    ensures 0 <= Pending(ks[n]) <= 255
    ensures n < |es| && es[n].Store? && !ks[n].reader.Testing? ==> ks[n].head != ks[n].tail
  {
    RunKeeps(ks, es, n);
    if n < |es| && es[n].Store? && !ks[n].reader.Testing? {
      assert Enabled(ks[n], es[n]);
      StoreIsClear(ks[n]);
    }
  }

  /** A key is dropped exactly when 255 characters wait at the check. */
  lemma DropExact(k: Ring)
    requires Inv(k) && k.handler.Chosen?
    ensures Apply(k, Check).handler.Outside? <==> Pending(k) == 255
  {
    FullAndEmpty(k);
  }

  /** The scancodes that arrived in the first `n` statements. */
  function Scancodes(es: seq<Event>, n: nat): seq<Byte>
    requires n <= |es|
  {
    if n == 0 then []
    else Scancodes(es, n - 1) + if es[n - 1].Press? then [es[n - 1].scancode] else []
  }

  /** The character the handler is busy with. */
  function InFlight(k: Ring): seq<Byte>
  {
    match k.handler
    case Outside => []
    case Chosen(c) => [c]
    case Checked(c, _) => [c]
    case Stored(c, _) => [c]
  }

  /** Shift is active exactly while the last event of a shift key was a press. */
  lemma {:induction false} ShiftIs(ks: seq<Ring>, es: seq<Event>, n: nat)
    requires Interleaving(ks, es) && n <= |es|
    ensures ks[n].shift <==> ShiftDown(Scancodes(es, n))
  {
    if n > 0 {
      ShiftIs(ks, es, n - 1);
      var k, before := ks[n - 1], Scancodes(es, n - 1);
      assert Shaped(k) && Enabled(k, es[n - 1]) && ks[n] == Apply(k, es[n - 1]);
      hide Interleaving, Decode, ShiftDown, Shaped;
      if es[n - 1].Press? {
        DecodeIs(before, es[n - 1].scancode);
      } else {
        assert Scancodes(es, n) == before;
      }
    }
  }

  /** No key is lost as long as fewer than 255 characters wait whenever the handler checks: what was accepted,
      and the character in flight, is the text that the scancodes type. */
  lemma {:induction false} NothingLost(ks: seq<Ring>, es: seq<Event>, n: nat)
    requires Interleaving(ks, es) && n <= |es|
    requires forall i :: 0 <= i < n && es[i].Check? ==> Pending(ks[i]) < 255
    ensures ks[n].accepted + InFlight(ks[n]) == TextOf(Scancodes(es, n))
  {
    if n > 0 {
      NothingLost(ks, es, n - 1);
      RunKeeps(ks, es, n - 1);
      ShiftIs(ks, es, n - 1);
      var k, e, before := ks[n - 1], es[n - 1], Scancodes(es, n - 1);
      if e.Press? {
        DecodeIs(before, e.scancode);
        assert Scancodes(es, n)[..|before|] == before;
      } else {
        assert Scancodes(es, n) == before;
      }
      hide Inv, Interleaving, Decode, Pending, ShiftDown, TypedBy;
      LossStep(ks, es, n - 1);
    }
  }

  lemma LossStep(ks: seq<Ring>, es: seq<Event>, i: nat)
    requires Interleaving(ks, es) && i < |es| && Inv(ks[i]) && (es[i].Check? ==> Pending(ks[i]) < 255)
    ensures ks[i + 1].accepted + InFlight(ks[i + 1]) ==
      ks[i].accepted + InFlight(ks[i])
        + (if es[i].Press? && Decode(es[i].scancode, ks[i].shift).1 != 0 then [Decode(es[i].scancode, ks[i].shift).1]
           else [])
  {
    var k := ks[i];
    assert Enabled(k, es[i]) && ks[i + 1] == Apply(k, es[i]);
    if es[i].Check? {
      DropExact(k);
    }
    hide Inv, Interleaving, Decode, Pending;
  }

  // ----- The variables of the driver -----

  /** The handler from entry to return, with nothing in between. */
  function Handled(k: Ring, scancode: Byte): (r: Ring)
    requires Shaped(k) && k.handler.Outside?
  {
    var chosen := Apply(k, Press(scancode));
    if chosen.handler.Outside? then chosen
    else
      var checked := Apply(chosen, Check);
      if checked.handler.Outside? then checked else Apply(Apply(checked, Store), Publish)
  }

  /** What one interrupt accepts: the character on the cap of the key, if it has one and there is room. */
  lemma HandledIs(k: Ring, scancode: Byte)
    requires Inv(k) && k.handler.Outside?
    ensures Shaped(k)
    ensures var r := Handled(k, scancode);
            && (r.shift <==> ShiftPressed(scancode) || (k.shift && !ShiftReleased(scancode)))
            && r.consumed == k.consumed
            && r.accepted == k.accepted + Accepts(k, scancode)
  {
    if scancode < 0x80 {
      KeyOfCap(scancode, k.shift);
    }
    StepKeeps(k, Press(scancode));
    hide CapOf, KeyOf;
    var chosen := Apply(k, Press(scancode));
    if !chosen.handler.Outside? {
      DropExact(chosen);
    }
    hide InOrder, HandlerOk, ReaderOk, Next;
  }

  function Accepts(k: Ring, scancode: Byte): seq<Byte>
  {
    if scancode < 0x80 && !ShiftPressed(scancode) && CapOf(scancode, k.shift) != 0 && Pending(k) < 255
      then [CapOf(scancode, k.shift)]
    else []
  }

  class Keyboard {
    const buffer: array<Byte>
    var head: nat
    var tail: nat
    var shift: bool
    ghost var reader: Reader
    ghost var accepted: seq<Byte>
    ghost var consumed: seq<Byte>

    ghost function State(): Ring
      reads this, buffer
    {
      Ring(buffer[..], head, tail, shift, Outside, reader, accepted, consumed)
    }

    ghost predicate Valid()
      reads this, buffer
    {
      Inv(State())
    }

    constructor ()
      ensures Valid() && State() == Initial() && fresh(buffer)
    {
      buffer := new Byte[BUFFER_SIZE](i => 0);
      head, tail, shift := 0, 0, false;
      reader, accepted, consumed := Testing, [], [];
      new;
      assert State().buffer == Initial().buffer;
    }

    /** `keyboard_handler`, wherever the interrupted reader stands. */
    method Handle(scancode: Byte)
      requires Valid()
      modifies this, buffer
      ensures Valid() && State() == Handled(old(State()), scancode)
      ensures shift <==> ShiftPressed(scancode) || (old(shift) && !ShiftReleased(scancode))
      ensures accepted == old(accepted) + old(Accepts(State(), scancode)) && consumed == old(consumed)
    {
      HandledIs(State(), scancode);
      HandledKeeps(State(), scancode);
      hide Inv, KeyOf, CapOf, Accepts;
      ShapedBy(State());
      if scancode >= 0x80 {
        var released := scancode - 0x80;
        if released == LSHIFT || released == RSHIFT {
          shift := false;
        }
      } else if scancode == LSHIFT || scancode == RSHIFT {
        shift := true;
      } else {
        var c := KeyOf(scancode, shift);
        if c != 0 {
          var next := (head + 1) % BUFFER_SIZE;
          if next != tail {
            buffer[head] := c;
            head := next;
            accepted := accepted + [c];
          }
        }
      }
    }

    /** The test of `keyboard_getc`. The wait between two tests is not modelled. */
    method HasKey() returns (b: bool)
      requires Valid() && reader.Testing?
      modifies `reader
      ensures Valid() && State() == Apply(old(State()), Test)
      ensures b <==> old(Pending(State())) > 0
      ensures b <==> reader.Fetching?
    {
      StepKeeps(State(), Test);
      FullAndEmpty(State());
      b := head != tail;
      if b {
        reader := Fetching;
      }
    }

    /** The fetch. */
    method FetchKey() returns (c: Byte)
      requires Valid() && reader.Fetching?
      modifies `reader
      ensures Valid() && State() == Apply(old(State()), Fetch)
      ensures |consumed| < |accepted| && c == accepted[|consumed|] && reader == Advancing(c)
    {
      StepKeeps(State(), Fetch);
      c := buffer[tail];
      reader := Advancing(c);
    }

    /** The advance, after which the fetched character is consumed. */
    method AdvanceTail()
      requires Valid() && reader.Advancing?
      modifies `tail, `reader, `consumed
      ensures Valid() && State() == Apply(old(State()), Advance)
    {
      StepKeeps(State(), Advance);
      tail := (tail + 1) % BUFFER_SIZE;
      consumed := consumed + [reader.c];
      reader := Testing;
    }
  }

  lemma ShapedBy(k: Ring)
    requires Inv(k)
    ensures Shaped(k)
  {
  }

  /** A whole run of the handler keeps the invariant. */
  lemma HandledKeeps(k: Ring, scancode: Byte)
    requires Inv(k) && k.handler.Outside?
    ensures Inv(Handled(k, scancode))
  {
    hide Inv, KeyOf;
    ShapedBy(k);
    StepKeeps(k, Press(scancode));
    var chosen := Apply(k, Press(scancode));
    if !chosen.handler.Outside? {
      StepKeeps(chosen, Check);
      var checked := Apply(chosen, Check);
      if !checked.handler.Outside? {
        StepKeeps(checked, Store);
        StepKeeps(Apply(checked, Store), Publish);
      }
    }
  }
}
