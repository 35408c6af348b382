/** Paths of the form "0:/a/b" (src/fs/path_parser.c): the parser, its linked list of parts, and
    what it leaves on the heap. */
module PathParser {
  import opened Bytes
  import opened CStrings
  import opened HeapModel
  import opened KernelHeaps

  const SLASH: Byte := 0x2F
  const COLON: Byte := 0x3A
  const ZERO: Byte := 0x30
  const PART_SIZE := 256
  const NODE_SIZE := 8
  const ROOT_SIZE := 8

  // ----- What a path means -----

  /** `s` up to its first slash. */
  function BeforeSlash(s: seq<Byte>): (r: seq<Byte>)
    ensures |r| <= |s| && r == s[..|r|] && SLASH !in r
    ensures |r| < |s| ==> s[|r|] == SLASH
  {
    if s == [] || s[0] == SLASH then [] else [s[0]] + BeforeSlash(s[1..])
  }

  /** `s` after its first slash, or nothing. */
  function AfterSlash(s: seq<Byte>): (r: seq<Byte>)
    ensures |r| <= |s| && (s != [] ==> |r| < |s|)
  {
    var n := |BeforeSlash(s)|;
    if n < |s| then s[n + 1..] else []
  }

  /** The parts the parser takes from the text after the drive. */
  function PartsOf(s: seq<Byte>): seq<seq<Byte>>
    decreases |s|
  {
    var part := BeforeSlash(s);
    if part == [] then [] else [part] + PartsOf(AfterSlash(s))
  }

  lemma {:induction false} PartsFew(s: seq<Byte>)
    ensures |PartsOf(s)| <= |s|
    decreases |s|
  {
    if BeforeSlash(s) != [] {
      PartsFew(AfterSlash(s));
    }
  }

  predicate HasDrive(s: seq<Byte>)
  {
    |s| >= 3 && '0' as int <= s[0] <= '9' as int && s[1] == ':' as int && s[2] == '/' as int
  }

  datatype Path = Path(drive: nat, parts: seq<seq<Byte>>)

  function ParsePath(s: seq<Byte>): Option<Path>
  {
    if HasDrive(s) then Some(Path(s[0] - ZERO, PartsOf(s[3..]))) else None
  }

  /** How many parts a path has, 0 for text that is no path. */
  function PartCount(s: seq<Byte>): nat
  {
    match ParsePath(s)
    case None => 0
    case Some(path) => |path.parts|
  }

  // ----- Printing and splitting -----

  /** All components of `s` between slashes, empty ones included. */
  function Components(s: seq<Byte>): seq<seq<Byte>>
    decreases |s|
  {
    var part := BeforeSlash(s);
    if |part| < |s| then [part] + Components(AfterSlash(s)) else [part]
  }

  function UntilEmpty(parts: seq<seq<Byte>>): seq<seq<Byte>>
  {
    if parts == [] || parts[0] == [] then [] else [parts[0]] + UntilEmpty(parts[1..])
  }

  /** On any text the parser returns exactly the components before the first empty one. */
  lemma {:induction false} PartsAreComponents(s: seq<Byte>)
    ensures PartsOf(s) == UntilEmpty(Components(s))
    decreases |s|
  {
    var part := BeforeSlash(s);
    if |part| < |s| {
      PartsAreComponents(AfterSlash(s));
      assert Components(s)[1..] == Components(AfterSlash(s));
    } else if part != [] {
      assert AfterSlash(s) == [] && PartsOf([]) == [];
      assert Components(s)[1..] == [];
    }
  }

  /** Parts with slashes between them, and after the last one if `trailing`. */
  function Join(parts: seq<seq<Byte>>, trailing: bool): seq<Byte>
  {
    if parts == [] then []
    else if |parts| == 1 then parts[0] + (if trailing then ['/' as int] else [])
    else parts[0] + ['/' as int] + Join(parts[1..], trailing)
  }

  predicate Printable(part: seq<Byte>)
  {
    part != [] && '/' as int !in part && 0 !in part
  }

  lemma {:induction false} BeforeSlashOfConcat(part: seq<Byte>, rest: seq<Byte>)
    requires SLASH !in part && (rest == [] || rest[0] == SLASH)
    ensures BeforeSlash(part + rest) == part
  {
    if part == [] {
      assert part + rest == rest;
    } else {
      assert (part + rest)[1..] == part[1..] + rest;
      BeforeSlashOfConcat(part[1..], rest);
    }
  }

  lemma {:induction false} PartsOfJoin(parts: seq<seq<Byte>>, trailing: bool)
    requires forall i :: 0 <= i < |parts| ==> Printable(parts[i])
    ensures PartsOf(Join(parts, trailing)) == parts
  {
    if parts != [] {
      var part, s := parts[0], Join(parts, trailing);
      var rest := if |parts| == 1 then (if trailing then [SLASH] else []) else [SLASH] + Join(parts[1..], trailing);
      assert s == part + rest;
      BeforeSlashOfConcat(part, rest);
      PartsOfJoin(parts[1..], trailing);
      assert AfterSlash(s) == if |parts| == 1 then [] else Join(parts[1..], trailing);
      assert parts == [part] + parts[1..];
    }
  }

  /** Parsing undoes printing. */
  lemma ParseOfPrint(drive: nat, parts: seq<seq<Byte>>, trailing: bool)
    requires drive <= 9 && forall i :: 0 <= i < |parts| ==> Printable(parts[i])
    ensures ParsePath(['0' as int + drive, ':' as int, '/' as int] + Join(parts, trailing)) == Some(Path(drive, parts))
  {
    PartsOfJoin(parts, trailing);
    var s := [ZERO + drive, COLON, SLASH] + Join(parts, trailing);
    assert s[3..] == Join(parts, trailing);
  }

  // ----- The parser -----

  class PathPart {
    const addr: nat
    const nameAddr: nat
    /** The part's buffer, a C string. */
    const name: seq<Byte>
    var next: PathPart?

    constructor (addr: nat, nameAddr: nat, name: seq<Byte>)
      ensures this.addr == addr && this.nameAddr == nameAddr && this.name == name && next == null
    {
      this.addr, this.nameAddr, this.name := addr, nameAddr, name;
      next := null;
    }
  }

  /** `first` heads the list of exactly `nodes`. */
  ghost predicate Linked(first: PathPart?, nodes: seq<PathPart>)
    reads nodes
  {
    && first == (if nodes == [] then null else nodes[0])
    && (forall i :: 0 <= i < |nodes| ==> nodes[i].next == if i + 1 < |nodes| then nodes[i + 1] else null)
    && (forall i, j :: 0 <= i < j < |nodes| ==> nodes[i] != nodes[j])
  }

  /** Every part's buffer holds a terminated string. */
  ghost predicate Terminated(nodes: seq<PathPart>)
  {
    forall i :: 0 <= i < |nodes| ==> 0 in nodes[i].name
  }

  ghost function Names(nodes: seq<PathPart>): (r: seq<seq<Byte>>)
    ensures |r| == |nodes| && forall i :: 0 <= i < |nodes| ==> r[i] == CStr(nodes[i].name)
  {
    seq(|nodes|, i requires 0 <= i < |nodes| => CStr(nodes[i].name))
  }

  /** The heap blocks of the parts. */
  ghost function Blocks(nodes: seq<PathPart>): set<nat>
  {
    (set n | n in nodes :: n.addr) + (set n | n in nodes :: n.nameAddr)
  }

  class PathRoot {
    const addr: nat
    const driveNo: nat
    var first: PathPart?
    ghost var nodes: seq<PathPart>

    constructor (addr: nat, driveNo: nat)
      ensures this.addr == addr && this.driveNo == driveNo && first == null && nodes == []
    {
      this.addr, this.driveNo := addr, driveNo;
      first := null;
      nodes := [];
    }
  }

  /** The drive digit of "d:/...", or -1. */
  method GetDriveNo(path: seq<Byte>) returns (drive: int)
    requires 0 in path
    ensures drive == if HasDrive(CStr(path)) then path[0] - ZERO else -1
    ensures HasDrive(CStr(path)) ==> 3 <= |CStr(path)| && 0 <= drive <= 9 && drive == CStr(path)[0] - ZERO
  {
    InString(path, |path|, 0);
    if IsDigit(path[0]) {
      InString(path, |path|, 1);
      if path[1] == COLON {
        InString(path, |path|, 2);
        if path[2] == SLASH {
          InString(path, |path|, 2);
          return path[0] - ZERO;
        }
      }
    }
    return -1;
  }

  lemma {:induction false} BeforeSlashEndsAt(s: seq<Byte>, n: nat)
    requires n <= |s| && SLASH !in s[..n] && (n < |s| ==> s[n] == SLASH)
    ensures BeforeSlash(s) == s[..n]
  {
    if n > 0 {
      assert s[0] == s[..n][0];
      assert s[..n][1..] == s[1..][..n - 1];
      BeforeSlashEndsAt(s[1..], n - 1);
      assert s[..n] == [s[0]] + s[1..][..n - 1];
    }
  }

  /** Copies the part at `cursor` into a buffer and finds where the next one starts. */
  method CopyPart(path: seq<Byte>, cursor: nat) returns (name: seq<Byte>, length: nat, next: nat)
    requires 0 in path && cursor <= |CStr(path)| && |BeforeSlash(CStr(path)[cursor..])| < PART_SIZE
    ensures next <= |CStr(path)| && CStr(path)[next..] == AfterSlash(CStr(path)[cursor..])
    ensures length == |BeforeSlash(CStr(path)[cursor..])|
    ensures 0 in name && CStr(name) == BeforeSlash(CStr(path)[cursor..])
  {
    ghost var s := CStr(path);
    hide CStr, BeforeSlash, AfterSlash;
    ghost var rest := s[cursor..];
    var result := new Byte[PART_SIZE];
    var i := 0;
    InString(path, |path|, cursor);
    while path[cursor + i] != 0 && path[cursor + i] != SLASH
      invariant cursor + i <= |s| && cursor + i < |path| && i < PART_SIZE
      invariant path[cursor + i] != 0 <==> cursor + i < |s|
      invariant i <= |BeforeSlash(rest)|
      invariant forall k :: 0 <= k < i ==> result[k] == rest[k] && rest[k] != SLASH
      decreases |s| - cursor - i
    {
      assert rest[i] == path[cursor + i];
      assert |BeforeSlash(rest)| < |rest| ==> rest[|BeforeSlash(rest)|] == SLASH;
      result[i] := path[cursor + i];
      i := i + 1;
      InString(path, |path|, cursor + i);
    }
    next := cursor + i;
    if path[next] == SLASH {
      next := next + 1;
    }
    result[i] := 0;
    name := result[..];
    PartCopied(s, cursor, name, i);
    length := i;
  }

  lemma PartCopied(s: seq<Byte>, cursor: nat, name: seq<Byte>, i: nat)
    requires 0 !in s && cursor + i <= |s| && i < |name| && name[i] == 0
    requires forall k :: 0 <= k < i ==> name[k] == s[cursor..][k] && s[cursor..][k] != SLASH
    requires cursor + i < |s| ==> s[cursor + i] == SLASH
    ensures BeforeSlash(s[cursor..]) == s[cursor..][..i] && CStr(name) == s[cursor..][..i] && 0 in name
    ensures AfterSlash(s[cursor..]) == if cursor + i < |s| then s[cursor + i + 1..] else []
  {
    hide CStr, BeforeSlash;
    var rest := s[cursor..];
    BeforeSlashEndsAt(rest, i);
    assert name[..i] == rest[..i];
    assert 0 !in rest[..i] by { assert forall k :: 0 <= k < i ==> rest[..i][k] == s[cursor + k]; }
    CStrEndsAt(name, i);
    assert i < |rest| ==> rest[i + 1..] == s[cursor + i + 1..];
  }

  /** `path_parser_get_next_part`: a buffer with the next part, or nothing and no block kept. */
  method GetNextPart(path: seq<Byte>, cursor: nat, heap: KernelHeap)
    returns (found: bool, name: seq<Byte>, nameAddr: nat, next: nat)
    requires 0 in path && cursor <= |CStr(path)| && |BeforeSlash(CStr(path)[cursor..])| < PART_SIZE
    requires heap.Valid() && heap.state.brk + PART_SIZE + PAGE < TWO_32
    modifies heap, heap.ram
    ensures heap.Valid() && Creeps(old(heap.state), heap.state, PART_SIZE + HEADER)
    ensures next <= |CStr(path)| && CStr(path)[next..] == AfterSlash(CStr(path)[cursor..])
    ensures found <==> BeforeSlash(CStr(path)[cursor..]) != []
    ensures found ==> 0 in name && CStr(name) == BeforeSlash(CStr(path)[cursor..])
    ensures found ==> nameAddr !in Live(old(heap.state)) && Live(heap.state) == Live(old(heap.state)) + {nameAddr}
    ensures !found ==> Live(heap.state) == Live(old(heap.state))
    ensures var (g, p) := Small(old(heap.state), PART_SIZE); if found then (heap.state, nameAddr) == (g, p)
      else heap.state == Release(g, p)
    ensures Spares(old(heap.state), old(heap.ram[..]), heap.state, heap.ram[..], Live(old(heap.state)))
  {
    hide Small, KernelHeap.ValidIn, CStr, BeforeSlash, AfterSlash, Live, Creeps, Allocate, Release, Spares;
    var length;
    ghost var h, m := heap.state, heap.ram[..];
    nameAddr := Take(heap, PART_SIZE);
    ghost var h1, m1 := heap.state, heap.ram[..];
    name, length, next := CopyPart(path, cursor);
    found := length != 0;
    if !found {
      Give(heap, nameAddr);
      CreepsTwice(h, h1, heap.state, PART_SIZE + HEADER, 0);
      SparesTwice(h, m, h1, m1, heap.state, heap.ram[..], Live(h), Live(h1) - {nameAddr});
    }
  }

  ghost predicate ShortParts(s: seq<Byte>)
  {
    forall i :: 0 <= i < |PartsOf(s)| ==> |PartsOf(s)[i]| < PART_SIZE
  }

  lemma ShortFirst(s: seq<Byte>)
    requires ShortParts(s)
    ensures |BeforeSlash(s)| < PART_SIZE
    ensures BeforeSlash(s) != [] ==> ShortParts(AfterSlash(s))
  {
    var part := BeforeSlash(s);
    if part != [] {
      var all, tail := PartsOf(s), PartsOf(AfterSlash(s));
      assert all == [part] + tail;
      hide PartsOf, BeforeSlash, AfterSlash;
      assert all[0] == part && forall i :: 0 <= i < |tail| ==> tail[i] == all[i + 1];
    }
  }

  /** Appends a part to the list. */
  method Append(root: PathRoot, last: PathPart?, part: PathPart)
    requires Linked(root.first, root.nodes) && part !in root.nodes && part.next == null && root.first != part
    requires last == if root.nodes == [] then null else root.nodes[|root.nodes| - 1]
    modifies root, root.nodes
    ensures root.nodes == old(root.nodes) + [part] && Linked(root.first, root.nodes)
  {
    if last == null {
      root.first := part;
    } else {
      last.next := part;
    }
    root.nodes := root.nodes + [part];
  }

  /** All blocks of a parsed path are different. */
  ghost predicate Apart(rootAddr: nat, nodes: seq<PathPart>)
  {
    && (forall i :: 0 <= i < |nodes| ==>
      nodes[i].addr != nodes[i].nameAddr && nodes[i].addr != rootAddr && nodes[i].nameAddr != rootAddr)
    && (forall i, j :: 0 <= i < j < |nodes| ==>
          nodes[i].addr != nodes[j].addr && nodes[i].addr != nodes[j].nameAddr
          && nodes[i].nameAddr != nodes[j].addr && nodes[i].nameAddr != nodes[j].nameAddr)
  }

  lemma BlocksAppend(nodes: seq<PathPart>, part: PathPart)
    ensures Blocks(nodes + [part]) == Blocks(nodes) + {part.addr, part.nameAddr}
  {
    var more := nodes + [part];
    assert forall n :: n in more <==> n in nodes || n == part;
    forall a
      ensures a in Blocks(more) <==> a in Blocks(nodes) || a == part.addr || a == part.nameAddr
    {
      assert part in more;
      assert a in Blocks(nodes) <==> exists n :: n in nodes && (a == n.addr || a == n.nameAddr);
      assert a in Blocks(more) <==> exists n :: n in more && (a == n.addr || a == n.nameAddr);
    }
  }

  lemma BlockMember(nodes: seq<PathPart>, i: nat)
    requires i < |nodes|
    ensures nodes[i].addr in Blocks(nodes) && nodes[i].nameAddr in Blocks(nodes)
  {
    assert nodes[i] in nodes;
  }

  lemma ApartAppend(rootAddr: nat, nodes: seq<PathPart>, part: PathPart, live: set<nat>)
    requires Apart(rootAddr, nodes) && Blocks(nodes) <= live && rootAddr in live
    requires part.addr !in live && part.nameAddr !in live && part.addr != part.nameAddr
    ensures Apart(rootAddr, nodes + [part])
  {
    forall i | 0 <= i < |nodes|
      ensures nodes[i].addr in live && nodes[i].nameAddr in live
    {
      BlockMember(nodes, i);
    }
  }

  /** The list so far, as the loop of the parser keeps it. */
  ghost predicate Progress(root: PathRoot, last: PathPart?, live0: set<nat>, live: set<nat>)
    reads root, root.nodes
  {
    && Linked(root.first, root.nodes) && Terminated(root.nodes) && Apart(root.addr, root.nodes)
    && last == (if root.nodes == [] then null else root.nodes[|root.nodes| - 1])
    && root.addr in live0 && live == live0 + Blocks(root.nodes) && Blocks(root.nodes) !! live0
  }

  /** Links one more part with its two new blocks. */
  method LinkPart(root: PathRoot, last: PathPart?, addr: nat, nameAddr: nat, name: seq<Byte>, ghost live0: set<nat>,
          ghost live: set<nat>)
    returns (part: PathPart)
    requires Progress(root, last, live0, live) && 0 in name
    requires addr !in live && nameAddr !in live && addr != nameAddr
    modifies root, root.nodes
    ensures fresh(part) && root.nodes == old(root.nodes) + [part] && part.addr == addr && part.nameAddr == nameAddr
    ensures Progress(root, part, live0, live + {nameAddr} + {addr})
    ensures Names(root.nodes) == old(Names(root.nodes)) + [CStr(name)]
  {
    hide CStr;
    part := new PathPart(addr, nameAddr, name);
    ghost var nodes := root.nodes;
    ApartAppend(root.addr, nodes, part, live);
    BlocksAppend(nodes, part);
    hide Blocks, Apart;
    Append(root, last, part);
  }

  /** How far the break moves for `n` parts: a block for the name and one for the node of each, and one
      more name block that is given back. */
  function PartsGrowth(n: nat): nat
  {
    296 * n + PART_SIZE + HEADER
  }

  /** The heap after the blocks of `n` parts were taken, and those blocks: of each part and of its name. */
  ghost function PartBlocks(h: Heap, n: nat): (Heap, seq<(nat, nat)>)
  {
    if n == 0 then (h, [])
    else
      var (g, blocks) := PartBlocks(h, n - 1);
      var (g1, p) := Small(g, PART_SIZE);
      var (g2, a) := Small(g1, NODE_SIZE);
      (g2, blocks + [(a, p)])
  }

  /** The heap after the parser took the blocks of a path of `n` parts, its root block and those of the parts. */
  ghost function ParsedHeap(h: Heap, n: nat): (Heap, nat, seq<(nat, nat)>)
  {
    var (h1, r) := Small(h, ROOT_SIZE);
    var (h2, blocks) := PartBlocks(h1, n);
    var (h3, q) := Small(h2, PART_SIZE);
    (Release(h3, q), r, blocks)
  }

  /** The heap after the blocks of the parts were given back, in order. */
  ghost function FreedParts(h: Heap, blocks: seq<(nat, nat)>): Heap
    decreases |blocks|
  {
    if blocks == [] then h
    else FreedParts(Release(Release(h, blocks[0].1), blocks[0].0), blocks[1..])
  }

  lemma SmallGrows(h: Heap, size: nat)
    requires size > 0
    ensures h.brk <= Small(h, size).0.brk <= h.brk + size + HEADER
  {
    if Indexed(h) {
      KmallocCreeps(h, size);
    }
    hide Allocate;
  }

  lemma {:induction false} PartBlocksGrow(h: Heap, n: nat)
    ensures h.brk <= PartBlocks(h, n).0.brk <= h.brk + 296 * n
  {
    if n > 0 {
      PartBlocksGrow(h, n - 1);
      var g := PartBlocks(h, n - 1).0;
      SmallGrows(g, PART_SIZE);
      SmallGrows(Small(g, PART_SIZE).0, NODE_SIZE);
      hide Small;
    }
  }

  /** The break after a path of `n` parts was parsed. */
  lemma ParsedGrows(h: Heap, n: nat)
    ensures h.brk <= ParsedHeap(h, n).0.brk <= h.brk + PathGrowth(n)
  {
    SmallGrows(h, ROOT_SIZE);
    var h1 := Small(h, ROOT_SIZE).0;
    PartBlocksGrow(h1, n);
    SmallGrows(PartBlocks(h1, n).0, PART_SIZE);
    hide Small, PartBlocks;
  }

  lemma {:induction false} FreedBreak(h: Heap, blocks: seq<(nat, nat)>)
    ensures FreedParts(h, blocks).brk == h.brk
    decreases |blocks|
  {
    if blocks != [] {
      FreedBreak(Release(Release(h, blocks[0].1), blocks[0].0), blocks[1..]);
    }
  }

  ghost function Pairs(nodes: seq<PathPart>): (r: seq<(nat, nat)>)
    ensures |r| == |nodes| && forall i :: 0 <= i < |r| ==> r[i] == (nodes[i].addr, nodes[i].nameAddr)
  {
    seq(|nodes|, i requires 0 <= i < |nodes| => (nodes[i].addr, nodes[i].nameAddr))
  }

  lemma MoreBlocks(h: Heap, nodes: seq<PathPart>, part: PathPart, g: Heap, g1: Heap, g2: Heap)
    requires PartBlocks(h, |nodes|) == (g, Pairs(nodes))
    requires (g1, part.nameAddr) == Small(g, PART_SIZE) && (g2, part.addr) == Small(g1, NODE_SIZE)
    ensures PartBlocks(h, |nodes| + 1) == (g2, Pairs(nodes + [part]))
  {
    hide Small;
    assert Pairs(nodes + [part]) == Pairs(nodes) + [(part.addr, part.nameAddr)];
  }

  /** The loop of the parser. */
  method ParseParts(path: seq<Byte>, heap: KernelHeap, root: PathRoot) returns (last: PathPart?)
    requires 0 in path && 3 <= |CStr(path)| && ShortParts(CStr(path)[3..])
    requires heap.Valid() && heap.state.brk + 296 * (|CStr(path)| + 1) + PART_SIZE + PAGE < TWO_32
    requires root.nodes == [] && root.first == null && root.addr in Live(heap.state)
    modifies heap, heap.ram, root
    ensures heap.Valid() && (forall i :: 0 <= i < |root.nodes| ==> fresh(root.nodes[i]))
    ensures Progress(root, last, Live(old(heap.state)), Live(heap.state))
    ensures Names(root.nodes) == PartsOf(CStr(path)[3..])
    ensures Creeps(old(heap.state), heap.state, PartsGrowth(|root.nodes|)) && |root.nodes| + 3 <= |CStr(path)|
    ensures
      var (g, blocks) := PartBlocks(old(heap.state), |root.nodes|);
      var (f, q) := Small(g, PART_SIZE);
      heap.state == Release(f, q) && Pairs(root.nodes) == blocks
    ensures Spares(old(heap.state), old(heap.ram[..]), heap.state, heap.ram[..], Live(old(heap.state)))
      && Live(old(heap.state)) <= Live(heap.state)
  {
    hide PartBlocks, Pairs, Small, Release, KernelHeap.ValidIn, CStr, Live, Blocks, Apart, ShortParts;
    hide BeforeSlash, AfterSlash, Linked, Progress;
    hide Creeps, Allocate, Spares;
    ghost var s, live0, h, m := CStr(path), Live(heap.state), heap.state, heap.ram[..];
    SparesSame(h, m, live0);
    var cursor := 3;
    last := null;
    EmptyProgress(root, live0);
    NoPairs(h, root.nodes);
    CreepsSame(h);
    while true
      invariant 3 <= cursor <= |s| && ShortParts(s[cursor..])
      invariant heap.Valid() && Creeps(h, heap.state, 296 * |root.nodes|) && |root.nodes| <= cursor - 3
      invariant forall i :: 0 <= i < |root.nodes| ==> fresh(root.nodes[i])
      invariant Progress(root, last, live0, Live(heap.state))
      invariant PartBlocks(h, |root.nodes|) == (heap.state, Pairs(root.nodes))
      invariant Spares(h, m, heap.state, heap.ram[..], live0) && live0 <= Live(heap.state)
      invariant Names(root.nodes) + PartsOf(s[cursor..]) == PartsOf(s[3..])
      decreases |s| - cursor
    {
      ShortFirst(s[cursor..]);
      Shrinks(s, cursor);
      ghost var live, h0, n, nodes := Live(heap.state), heap.state, 296 * |root.nodes|, root.nodes;
      ghost var m0 := heap.ram[..];
      BreakMoved(h, h0, n);
      var found, name, nameAddr, next := GetNextPart(path, cursor, heap);
      SparesTwice(h, m, h0, m0, heap.state, heap.ram[..], live0, live);
      CreepsTwice(h, h0, heap.state, n, PART_SIZE + HEADER);
      if !found {
        return;
      }
      ghost var h1, m1 := heap.state, heap.ram[..];
      BreakMoved(h, h1, n + PART_SIZE + HEADER);
      var addr := Take(heap, NODE_SIZE);
      SparesTwice(h, m, h1, m1, heap.state, heap.ram[..], live0, Live(h1));
      CreepsTwice(h, h1, heap.state, n + PART_SIZE + HEADER, 8 + HEADER);
      PartsStep(s, cursor, next, Names(root.nodes));
      last := LinkPart(root, last, addr, nameAddr, name, live0, live);
      MoreBlocks(h, nodes, last, h0, h1, heap.state);
      cursor := next;
    }
  }

  lemma NoPairs(h: Heap, nodes: seq<PathPart>)
    requires nodes == []
    ensures PartBlocks(h, 0) == (h, Pairs(nodes))
  {
  }

  lemma EmptyProgress(root: PathRoot, live: set<nat>)
    requires root.nodes == [] && root.first == null && root.addr in live
    ensures Progress(root, null, live, live) && Names(root.nodes) == []
  {
  }

  lemma Shrinks(s: seq<Byte>, cursor: nat)
    requires cursor <= |s|
    ensures BeforeSlash(s[cursor..]) != [] ==> |AfterSlash(s[cursor..])| < |s| - cursor
    ensures BeforeSlash(s[cursor..]) == [] ==> PartsOf(s[cursor..]) == []
  {
  }

  lemma PartsStep(s: seq<Byte>, cursor: nat, next: nat, names: seq<seq<Byte>>)
    requires cursor <= |s| && next <= |s| && s[next..] == AfterSlash(s[cursor..]) && BeforeSlash(s[cursor..]) != []
    ensures names + PartsOf(s[cursor..]) == (names + [BeforeSlash(s[cursor..])]) + PartsOf(s[next..])
  {
  }

  /** Room for parsing any text of `n` characters. */
  function ParseRoom(n: nat): nat
  {
    24 + 296 * (n + 1)
  }

  /** How far the break moves at most for a path of `n` parts. */
  function PathGrowth(n: nat): nat
  {
    8 + HEADER + PartsGrowth(n)
  }

  /** How far the break moves at most while this text is parsed. */
  function Growth(s: seq<Byte>): nat
  {
    PathGrowth(PartCount(s))
  }

  /** The heap side of a parsed path: exactly its blocks are new, and all are different. */
  ghost predicate Holds(root: PathRoot, before: set<nat>, now: set<nat>)
    reads root, root.nodes
  {
    && Linked(root.first, root.nodes) && Terminated(root.nodes) && Apart(root.addr, root.nodes)
    && now == before + {root.addr} + Blocks(root.nodes)
    && root.addr !in before && Blocks(root.nodes) !! before && root.addr !in Blocks(root.nodes)
  }

  /** Blocks taken while a path is held count as blocks that were there before it. */
  lemma HoldsMore(root: PathRoot, before: set<nat>, mid: set<nat>, now: set<nat>, taken: seq<nat>)
    requires Holds(root, before, mid) && Took(mid, now, taken)
    ensures var more := before + Elements(taken); Holds(root, more, now) && Took(before, more, taken)
  {
    var extra := Elements(taken);
    assert forall p :: p in extra ==> p !in mid;
    hide Apart, Linked, Terminated;
  }

  /** `path_parser_parse`: the list of parts, or null without a drive. Exactly the blocks of the
      returned path become live. */
  method Parse(path: seq<Byte>, heap: KernelHeap) returns (root: PathRoot?)
    requires 0 in path && (HasDrive(CStr(path)) ==> ShortParts(CStr(path)[3..]))
    requires heap.Valid() && heap.state.brk + ParseRoom(|CStr(path)|) + PART_SIZE + PAGE < TWO_32
    modifies heap, heap.ram
    ensures heap.Valid()
    ensures root == null ==> ParsePath(CStr(path)) == None && Live(heap.state) == Live(old(heap.state))
    ensures root != null ==>
      fresh(root) && (forall i :: 0 <= i < |root.nodes| ==> fresh(root.nodes[i])) && root.driveNo <= 9
    ensures root != null ==> ParsePath(CStr(path)) == Some(Path(root.driveNo, Names(root.nodes)))
    ensures root != null ==> Holds(root, Live(old(heap.state)), Live(heap.state))
    ensures if root == null then heap.state == old(heap.state)
      else Creeps(old(heap.state), heap.state, PathGrowth(|root.nodes|))
    ensures root != null ==> (heap.state, root.addr, Pairs(root.nodes)) == ParsedHeap(old(heap.state), |root.nodes|)
    ensures root != null ==> Growth(CStr(path)) == PathGrowth(|root.nodes|) <= ParseRoom(|CStr(path)|) + PART_SIZE
    ensures Spares(old(heap.state), old(heap.ram[..]), heap.state, heap.ram[..], Live(old(heap.state)))
  {
    hide PartBlocks, Pairs, Small, Release, KernelHeap.ValidIn, CStr, Live, Blocks, Apart, PartsOf, ShortParts;
    hide Linked, BeforeSlash, AfterSlash;
    hide HasDrive, Creeps, Allocate, Spares;
    var driveNo := GetDriveNo(path);
    if driveNo < 0 {
      SparesSame(heap.state, heap.ram[..], Live(heap.state));
      return null;
    }
    ghost var live, h, m := Live(heap.state), heap.state, heap.ram[..];
    var rootAddr := Take(heap, ROOT_SIZE);
    ghost var h1, m1 := heap.state, heap.ram[..];
    BreakMoved(h, h1, 8 + HEADER);
    root := new PathRoot(rootAddr, driveNo);
    var last := ParseParts(path, heap, root);
    CreepsTwice(h, h1, heap.state, 8 + HEADER, PartsGrowth(|root.nodes|));
    SparesTwice(h, m, h1, m1, heap.state, heap.ram[..], live, Live(h1));
  }

  /** `path_parser_free`: gives back every block of the path, each once. */
  method Free(root: PathRoot, heap: KernelHeap, ghost before: set<nat>)
    requires heap.Valid() && Holds(root, before, Live(heap.state))
    modifies heap, heap.ram
    ensures heap.Valid() && Live(heap.state) == before && Creeps(old(heap.state), heap.state, 0)
    ensures heap.state == Release(FreedParts(old(heap.state), Pairs(root.nodes)), root.addr)
    ensures Spares(old(heap.state), old(heap.ram[..]), heap.state, heap.ram[..], before)
  {
    hide FreedParts, Pairs, KernelHeap.ValidIn, Live, Blocks, Apart, Creeps, Release, Spares;
    var part := root.first;
    ghost var nodes, i, h, m := root.nodes, 0, heap.state, heap.ram[..];
    SparesSame(h, m, before);
    CreepsSame(h);
    assert nodes[i..] == nodes;
    while part != null
      invariant heap.Valid() && i <= |nodes| && part == if i < |nodes| then nodes[i] else null
      invariant Live(heap.state) == before + {root.addr} + Blocks(nodes[i..])
      invariant FreedParts(h, Pairs(nodes)) == FreedParts(heap.state, Pairs(nodes[i..]))
      invariant Creeps(h, heap.state, 0) && Linked(root.first, nodes)
      invariant Spares(h, m, heap.state, heap.ram[..], before)
      decreases |nodes| - i
    {
      assert nodes[i].next == if i + 1 < |nodes| then nodes[i + 1] else null;
      var next := part.next;
      LastBlocks(root.addr, nodes, i, before);
      ghost var h0, m0 := heap.state, heap.ram[..];
      Give(heap, part.nameAddr);
      ghost var h1, m1 := heap.state, heap.ram[..];
      Give(heap, part.addr);
      SparesTwice(h, m, h0, m0, h1, m1, before, Live(h0) - {part.nameAddr});
      SparesTwice(h, m, h1, m1, heap.state, heap.ram[..], before, Live(h1) - {part.addr});
      CreepsTwice(h, h0, h1, 0, 0);
      CreepsTwice(h, h1, heap.state, 0, 0);
      FirstFreed(h0, nodes, i);
      i := i + 1;
      part := next;
    }
    NoBlocks(nodes[i..]);
    NoneFreed(heap.state, nodes[i..]);
    ghost var h2, m2 := heap.state, heap.ram[..];
    Give(heap, root.addr);
    SparesTwice(h, m, h2, m2, heap.state, heap.ram[..], before, Live(h2) - {root.addr});
    CreepsTwice(h, h2, heap.state, 0, 0);
  }

  lemma FirstFreed(h: Heap, nodes: seq<PathPart>, i: nat)
    requires i < |nodes|
    ensures FreedParts(h, Pairs(nodes[i..])) ==
      FreedParts(Release(Release(h, nodes[i].nameAddr), nodes[i].addr), Pairs(nodes[i + 1..]))
  {
    assert Pairs(nodes[i..])[1..] == Pairs(nodes[i + 1..]);
  }

  lemma NoneFreed(h: Heap, nodes: seq<PathPart>)
    requires nodes == []
    ensures FreedParts(h, Pairs(nodes)) == h
  {
  }

  lemma NoBlocks(nodes: seq<PathPart>)
    requires nodes == []
    ensures Blocks(nodes) == {}
  {
  }

  /** Taking the two blocks of a node out of the remaining ones. */
  lemma LastBlocks(rootAddr: nat, nodes: seq<PathPart>, i: nat, before: set<nat>)
    requires i < |nodes| && Apart(rootAddr, nodes) && Blocks(nodes) !! before
    ensures nodes[i].addr in Blocks(nodes[i..]) && nodes[i].nameAddr in Blocks(nodes[i..])
    ensures nodes[i].addr != nodes[i].nameAddr
    ensures (before + {rootAddr} + Blocks(nodes[i..])) - {nodes[i].nameAddr} - {nodes[i].addr} ==
      before + {rootAddr} + Blocks(nodes[i + 1..])
    ensures nodes[i].addr !in before && nodes[i].nameAddr !in before
  {
    var rest := nodes[i + 1..];
    assert nodes[i..] == [nodes[i]] + rest;
    BlocksPrepend(nodes[i], rest);
    BlockMember(nodes, i);
    BlockMember(nodes[i..], 0);
    NotInRest(rootAddr, nodes, i);
    hide Blocks, Apart;
  }

  lemma BlocksPrepend(part: PathPart, nodes: seq<PathPart>)
    ensures Blocks([part] + nodes) == Blocks(nodes) + {part.addr, part.nameAddr}
  {
    var more := [part] + nodes;
    assert forall n :: n in more <==> n in nodes || n == part;
    forall a
      ensures a in Blocks(more) <==> a in Blocks(nodes) || a == part.addr || a == part.nameAddr
    {
      assert part in more;
      assert a in Blocks(nodes) <==> exists n :: n in nodes && (a == n.addr || a == n.nameAddr);
      assert a in Blocks(more) <==> exists n :: n in more && (a == n.addr || a == n.nameAddr);
    }
  }

  lemma NotInRest(rootAddr: nat, nodes: seq<PathPart>, i: nat)
    requires i < |nodes| && Apart(rootAddr, nodes)
    ensures nodes[i].addr !in Blocks(nodes[i + 1..]) && nodes[i].nameAddr !in Blocks(nodes[i + 1..])
    ensures nodes[i].addr != rootAddr && nodes[i].nameAddr != rootAddr && nodes[i].addr != nodes[i].nameAddr
  {
    var rest := nodes[i + 1..];
    assert forall j :: 0 <= j < |rest| ==> rest[j] == nodes[i + 1 + j];
  }
}
