/** Interleaved operations on the descriptor table: each open file behaves as if it were alone. */
module TableRuns {
  import opened Bytes
  import opened FatNames
  import Runs = FileRuns

  // ----- Tables of open files -----

  datatype OpenFile = OpenFile(drive: nat, item: DirItem, cursor: Runs.Cursor)

  type Table = seq<Option<OpenFile>>

  /** The lowest free slot, or the table length. */
  function FreeSlot(t: Table, i: nat): (r: nat)
    requires i <= |t|
    ensures i <= r <= |t| && (forall j :: i <= j < r ==> t[j].Some?) && (r < |t| ==> t[r].None?)
    decreases |t| - i
  {
    if i == |t| || t[i].None? then i else FreeSlot(t, i + 1)
  }

  // ----- Operations on a table -----

  datatype TableEvent = On(fd: nat, ev: Runs.Event) | OpenedAt(fd: nat) | ClosedAt(fd: nat) | Idle

  /** What every drive holds: the bytes of each item on it, and its cluster size. */
  datatype Drives = Drives(content: (nat, DirItem) -> seq<Byte>, size: nat -> nat)

  /** All slots but `k` are the same. */
  ghost predicate OthersSame(t: Table, t': Table, k: nat)
  {
    |t'| == |t| && forall i :: 0 <= i < |t| && i != k ==> t'[i] == t[i]
  }

  /** One operation on the table: on one open file, an open into the lowest free slot, a close, or
      anything that leaves the table alone. */
  ghost predicate TableStep(drives: Drives, t: Table, e: TableEvent, t': Table)
  {
    match e
    case On(fd, ev) =>
      && 1 <= fd <= |t| && OthersSame(t, t', fd - 1) && t[fd - 1].Some? && t'[fd - 1].Some?
      && var f, f' := t[fd - 1].value, t'[fd - 1].value;
         && f'.drive == f.drive && f'.item == f.item
         && Runs.Step(drives.content(f.drive, f.item), drives.size(f.drive), f.cursor, ev, f'.cursor)
    case OpenedAt(fd) =>
      && 1 <= fd <= |t| && OthersSame(t, t', fd - 1) && fd - 1 == FreeSlot(t, 0)
      && t'[fd - 1].Some? && t'[fd - 1].value.cursor == Runs.Cursor(0, 0)
    case ClosedAt(fd) =>
      1 <= fd <= |t| && t[fd - 1].Some? && t' == t[fd - 1 := None]
    case Idle => t' == t
  }

  /** A step of the file behind `fd` that leaves the other slots alone is a step of the table. */
  lemma StepOn(drives: Drives, t: Table, fd: nat, f: OpenFile, ev: Runs.Event, c: Runs.Cursor)
    requires 1 <= fd <= |t| && t[fd - 1] == Some(f)
    requires Runs.Step(drives.content(f.drive, f.item), drives.size(f.drive), f.cursor, ev, c)
    ensures TableStep(drives, t, On(fd, ev), t[fd - 1 := Some(f.(cursor := c))])
  {
    hide Runs.Step;
  }

  ghost predicate TableRun(drives: Drives, ts: seq<Table>, es: seq<TableEvent>)
  {
    |ts| == |es| + 1 && forall i :: 0 <= i < |es| ==> TableStep(drives, ts[i], es[i], ts[i + 1])
  }

  /** The operations of a run on one descriptor. */
  function EventsOn(fd: nat, es: seq<TableEvent>): seq<Runs.Event>
  {
    if es == [] then []
    else
      var last := es[|es| - 1];
      EventsOn(fd, es[..|es| - 1]) + (if last.On? && last.fd == fd then [last.ev] else [])
  }

  /** The run neither opens nor closes descriptor `fd`. */
  ghost predicate StaysOpen(fd: nat, es: seq<TableEvent>)
  {
    forall i :: 0 <= i < |es| ==> es[i] != OpenedAt(fd) && es[i] != ClosedAt(fd)
  }

  /** No seek of the run on `fd` goes back. */
  ghost predicate ForwardOn(fd: nat, ts: seq<Table>, es: seq<TableEvent>)
    requires |ts| == |es| + 1
  {
    forall i :: 0 <= i < |es| && es[i].On? && es[i].fd == fd && es[i].ev.Seek? ==> Advances(fd, ts[i], ts[i + 1])
  }

  predicate Advances(fd: nat, t: Table, t': Table)
  {
    1 <= fd <= |t| && fd <= |t'| && t[fd - 1].Some? && t'[fd - 1].Some?
      && t[fd - 1].value.cursor.pos <= t'[fd - 1].value.cursor.pos
  }

  /** The cursors `cs` take `f` to `f'` through the operations `evs`, as a run of its file alone. */
  ghost predicate RunOf(drives: Drives, f: OpenFile, f': OpenFile, cs: seq<Runs.Cursor>, evs: seq<Runs.Event>)
  {
    && f'.drive == f.drive && f'.item == f.item
    && Runs.Run(drives.content(f.drive, f.item), drives.size(f.drive), cs, evs)
    && cs[0] == f.cursor && cs[|cs| - 1] == f'.cursor
  }

  /** While `fd` stays open, the operations on it, taken out of any interleaving, are a run of its file
      alone, from the cursor it had to the cursor it ends with. */
  lemma {:induction false} Alone(drives: Drives, ts: seq<Table>, es: seq<TableEvent>, fd: nat)
    returns (cs: seq<Runs.Cursor>)
    requires TableRun(drives, ts, es) && StaysOpen(fd, es)
    requires 1 <= fd <= |ts[0]| && ts[0][fd - 1].Some?
    ensures |ts[|es|]| == |ts[0]| && ts[|es|][fd - 1].Some?
    ensures RunOf(drives, ts[0][fd - 1].value, ts[|es|][fd - 1].value, cs, EventsOn(fd, es))
    ensures ForwardOn(fd, ts, es) ==> RunForward(cs, EventsOn(fd, es))
  {
    if es == [] {
      cs := [ts[0][fd - 1].value.cursor];
    } else {
      var n := |es| - 1;
      RunSplit(drives, fd, ts, es);
      hide TableRun, TableStep, StaysOpen, RunOf, RunForward, ForwardOn;
      cs := Alone(drives, ts[..n + 1], es[..n], fd);
      if es[n].On? && es[n].fd == fd {
        cs := ExtendRun(drives, ts[n], ts[n + 1], fd, es[n].ev, ts[0][fd - 1].value, cs, EventsOn(fd, es[..n]));
      } else {
        ElsewhereKept(drives, ts[n], es[n], ts[n + 1], fd);
      }
    }
  }

  /** The events so far extend to a forward run of cursors. */
  ghost predicate RunForward(cs: seq<Runs.Cursor>, evs: seq<Runs.Event>)
  {
    |cs| == |evs| + 1 && Runs.Forward(cs, evs)
  }

  lemma RunSplit(drives: Drives, fd: nat, ts: seq<Table>, es: seq<TableEvent>)
    requires TableRun(drives, ts, es) && StaysOpen(fd, es) && es != []
    ensures var n := |es| - 1;
            && TableRun(drives, ts[..n + 1], es[..n]) && StaysOpen(fd, es[..n])
            && TableStep(drives, ts[n], es[n], ts[n + 1]) && es[n] != OpenedAt(fd) && es[n] != ClosedAt(fd)
            && (ForwardOn(fd, ts, es) ==>
                  && ForwardOn(fd, ts[..n + 1], es[..n])
                  && (es[n].On? && es[n].fd == fd && es[n].ev.Seek? ==> Advances(fd, ts[n], ts[n + 1])))
  {
    hide TableStep, Advances;
  }

  lemma ElsewhereKept(drives: Drives, t: Table, e: TableEvent, t': Table, fd: nat)
    requires TableStep(drives, t, e, t') && 1 <= fd <= |t| && e != OpenedAt(fd) && e != ClosedAt(fd)
      && !(e.On? && e.fd == fd)
    ensures |t'| == |t| && t'[fd - 1] == t[fd - 1]
  {
    hide Runs.Step;
  }

  lemma ExtendRun(drives: Drives, t: Table, t': Table, fd: nat, ev: Runs.Event, f: OpenFile, cs: seq<Runs.Cursor>,
          evs: seq<Runs.Event>)
    returns (more: seq<Runs.Cursor>)
    requires TableStep(drives, t, On(fd, ev), t') && RunOf(drives, f, t[fd - 1].value, cs, evs)
    ensures |t'| == |t| && t'[fd - 1].Some? && RunOf(drives, f, t'[fd - 1].value, more, evs + [ev])
    ensures RunForward(cs, evs) && (ev.Seek? ==> Advances(fd, t, t')) ==> RunForward(more, evs + [ev])
  {
    hide Runs.Step;
    more := cs + [t'[fd - 1].value.cursor];
  }

  /** So whatever happens in between on other descriptors, reads on one deliver its file in order. */
  lemma AloneDelivers(drives: Drives, ts: seq<Table>, es: seq<TableEvent>, fd: nat)
    requires TableRun(drives, ts, es) && StaysOpen(fd, es)
    requires 1 <= fd <= |ts[0]| && ts[0][fd - 1].Some?
    requires forall i :: 0 <= i < |EventsOn(fd, es)| ==> EventsOn(fd, es)[i].Read?
    requires var f := ts[0][fd - 1].value; f.cursor.pos <= |drives.content(f.drive, f.item)|
    ensures |ts[|es|]| == |ts[0]| && ts[|es|][fd - 1].Some?
    ensures var f, f' := ts[0][fd - 1].value, ts[|es|][fd - 1].value;
            && f.cursor.pos <= f'.cursor.pos <= |drives.content(f.drive, f.item)|
            && Runs.Delivered(EventsOn(fd, es)) == drives.content(f.drive, f.item)[f.cursor.pos..f'.cursor.pos]
  {
    var cs := Alone(drives, ts, es, fd);
    var f := ts[0][fd - 1].value;
    Runs.ReadsCompose(drives.content(f.drive, f.item), drives.size(f.drive), cs, EventsOn(fd, es));
  }

  /** And if no seek on it goes back, the table entries fetched for its reads are at most one less than its
      file has clusters, whatever happens in between. */
  lemma AloneCost(drives: Drives, ts: seq<Table>, es: seq<TableEvent>, fd: nat)
    requires TableRun(drives, ts, es) && StaysOpen(fd, es) && ForwardOn(fd, ts, es)
    requires 1 <= fd <= |ts[0]| && ts[0][fd - 1].Some? && ts[0][fd - 1].value.cursor == Runs.Cursor(0, 0)
    requires drives.size(ts[0][fd - 1].value.drive) > 0
    ensures var f := ts[0][fd - 1].value;
            var length, size := |drives.content(f.drive, f.item)|, drives.size(f.drive);
            0 <= Runs.Cost(EventsOn(fd, es)) <= if length == 0 then 0 else (length + size - 1) / size - 1
  {
    var cs := Alone(drives, ts, es, fd);
    hide ForwardOn, TableRun;
    var f := ts[0][fd - 1].value;
    Runs.ForwardCostBounded(drives.content(f.drive, f.item), drives.size(f.drive), cs, EventsOn(fd, es));
  }
}
