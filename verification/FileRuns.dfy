/** Runs of reads and seeks on one open file, and of any operations on a table of open files. What
    src/fs/fat16.c:214-305 and src/fs/file.c:40-162 do to descriptors, as a transition system. */
module FileRuns {
  import opened Bytes
  import opened Multiples

  /** The position of a descriptor and the index of its cached cluster. */
  datatype Cursor = Cursor(pos: nat, index: nat)

  /** A read delivered `data` and fetched `cost` table entries; a seek asked for `target`. */
  datatype Event = Read(asked: nat, data: seq<Byte>, cost: nat) | Seek(target: int, accepted: bool)

  /** The index from which a read walks: the cached one unless it lies beyond the position. */
  function WalkFrom(c: Cursor, size: nat): nat
  {
    if Times(c.index, size) <= c.pos then c.index else 0
  }

  /** One operation on a file with the given contents, in clusters of `size` bytes. */
  ghost predicate Step(content: seq<Byte>, size: nat, c: Cursor, ev: Event, c': Cursor)
  {
    match ev
    case Read(asked, data, cost) =>
      && c.pos <= c'.pos <= |content| && c'.pos - c.pos <= asked && data == content[c.pos..c'.pos]
      && (if asked == 0 || c.pos == |content| then c' == c && cost == 0
          else
            && cost == c'.index - WalkFrom(c, size)
            && Times(c'.index, size) <= c'.pos && Times(c'.index, size) < |content|)
    case Seek(target, accepted) =>
      && (accepted <==> 0 <= target <= |content|)
      && c' == if accepted then Cursor(target, c.index) else c
  }

  /** `cs` are the cursors between the events of a run. */
  ghost predicate Run(content: seq<Byte>, size: nat, cs: seq<Cursor>, evs: seq<Event>)
  {
    |cs| == |evs| + 1 && forall i :: 0 <= i < |evs| ==> Step(content, size, cs[i], evs[i], cs[i + 1])
  }

  /** What all the reads of a run delivered. */
  function Delivered(evs: seq<Event>): seq<Byte>
  {
    if evs == [] then []
    else Delivered(evs[..|evs| - 1]) + (if evs[|evs| - 1].Read? then evs[|evs| - 1].data else [])
  }

  function Cost(evs: seq<Event>): int
  {
    if evs == [] then 0
    else Cost(evs[..|evs| - 1]) + (if evs[|evs| - 1].Read? then evs[|evs| - 1].cost else 0)
  }

  lemma RunPrefix(content: seq<Byte>, size: nat, cs: seq<Cursor>, evs: seq<Event>)
    requires Run(content, size, cs, evs) && evs != []
    ensures Run(content, size, cs[..|evs|], evs[..|evs| - 1])
    ensures Step(content, size, cs[|evs| - 1], evs[|evs| - 1], cs[|evs|])
  {
  }

  /** The position never leaves the file. */
  lemma {:induction false} PositionInside(content: seq<Byte>, size: nat, cs: seq<Cursor>, evs: seq<Event>)
    requires Run(content, size, cs, evs) && cs[0].pos <= |content|
    ensures cs[|evs|].pos <= |content|
  {
    if evs != [] {
      RunPrefix(content, size, cs, evs);
      PositionInside(content, size, cs[..|evs|], evs[..|evs| - 1]);
    }
  }

  /** However the reads are split, together they deliver one slice of the contents. */
  lemma {:induction false} ReadsCompose(content: seq<Byte>, size: nat, cs: seq<Cursor>, evs: seq<Event>)
    requires Run(content, size, cs, evs) && cs[0].pos <= |content|
    requires forall i :: 0 <= i < |evs| ==> evs[i].Read?
    ensures cs[0].pos <= cs[|evs|].pos <= |content|
    ensures Delivered(evs) == content[cs[0].pos..cs[|evs|].pos]
  {
    if evs != [] {
      RunPrefix(content, size, cs, evs);
      var n := |evs| - 1;
      ReadsCompose(content, size, cs[..n + 1], evs[..n]);
      assert content[cs[0].pos..cs[n].pos] + content[cs[n].pos..cs[n + 1].pos] == content[cs[0].pos..cs[n + 1].pos];
    }
  }

  /** No seek of the run goes back. */
  ghost predicate Forward(cs: seq<Cursor>, evs: seq<Event>)
    requires |cs| == |evs| + 1
  {
    forall i :: 0 <= i < |evs| && evs[i].Seek? ==> cs[i].pos <= cs[i + 1].pos
  }

  /** The cache is not ahead of the position, and names a cluster that holds file bytes. */
  ghost predicate Behind(content: seq<Byte>, size: nat, c: Cursor)
  {
    Times(c.index, size) <= c.pos && (c.index > 0 ==> Times(c.index, size) < |content|)
  }

  /** Over a run that only moves forward, the table entries fetched are exactly the advance of the
      cache index, however the reads are split. */
  lemma {:induction false} ForwardCost(content: seq<Byte>, size: nat, cs: seq<Cursor>, evs: seq<Event>)
    requires Run(content, size, cs, evs) && Forward(cs, evs) && Behind(content, size, cs[0])
    ensures Cost(evs) == cs[|evs|].index - cs[0].index
    ensures Behind(content, size, cs[|evs|])
  {
    if evs != [] {
      RunPrefix(content, size, cs, evs);
      var n := |evs| - 1;
      assert Forward(cs[..n + 1], evs[..n]);
      ForwardCost(content, size, cs[..n + 1], evs[..n]);
    }
  }

  /** So a forward run from the start fetches at most one entry less than the file has clusters. */
  lemma ForwardCostBounded(content: seq<Byte>, size: nat, cs: seq<Cursor>, evs: seq<Event>)
    requires Run(content, size, cs, evs) && Forward(cs, evs) && cs[0] == Cursor(0, 0) && size > 0
    ensures Cost(evs) >= 0 && (content != [] ==> Cost(evs) <= (|content| + size - 1) / size - 1)
    ensures content == [] ==> Cost(evs) == 0
  {
    ForwardCost(content, size, cs, evs);
    var last := cs[|evs|].index;
    if content != [] {
      CeilingAbove(|content|, last, size);
    }
  }

  /** A cluster that starts before the end is below the number of clusters. */
  lemma CeilingAbove(length: nat, index: nat, size: nat)
    requires size > 0 && length > 0 && (index > 0 ==> Times(index, size) < length)
    ensures index <= (length + size - 1) / size - 1
  {
    var q := (length + size - 1) / size;
    QuotientBelow(length + size - 1, index + 1, size);
    TimesOrder(index, index + 1, size);
  }
}
