/** The file format the ELF loader reads (src/loader/elf.h): the header and the program headers of the System V
    ABI as records, encoded field by field, and the loader's fields read off them. */
module ElfFormats {
  import opened Bytes
  import opened ElfLoader

  function Half(v: U16): (r: seq<Byte>)
    ensures |r| == 2
  {
    [v % 0x100, v / 0x100]
  }

  function Word(v: U32): (r: seq<Byte>)
    ensures |r| == 4
  {
    [v % 0x100, v / 0x100 % 0x100, v / 0x1_0000 % 0x100, v / 0x100_0000]
  }

  /** `Elf32_Ehdr`. */
  datatype FileHeader = FileHeader(ident: seq<Byte>, etype: U16, machine: U16, version: U32, entry: U32, phoff: U32,
                                   shoff: U32, flags: U32, ehsize: U16, phentsize: U16, phnum: U16, shentsize: U16,
                                   shnum: U16, shstrndx: U16)

  function EncodeHeader(h: FileHeader): (r: seq<Byte>)
    requires |h.ident| == 16
    ensures |r| == 52
  {
    h.ident + Half(h.etype) + Half(h.machine) + Word(h.version) + Word(h.entry) + Word(h.phoff) + Word(h.shoff)
    + Word(h.flags) + Half(h.ehsize) + Half(h.phentsize) + Half(h.phnum) + Half(h.shentsize) + Half(h.shnum)
    + Half(h.shstrndx)
  }

  /** `Elf32_Phdr`. */
  datatype ProgramHeader = ProgramHeader(ptype: U32, offset: U32, vaddr: U32, paddr: U32, filesz: U32, memsz: U32,
                                         flags: U32, align: U32)

  function EncodeProgram(p: ProgramHeader): (r: seq<Byte>)
    ensures |r| == 32
  {
    Word(p.ptype) + Word(p.offset) + Word(p.vaddr) + Word(p.paddr) + Word(p.filesz) + Word(p.memsz) + Word(p.flags)
    + Word(p.align)
  }

  lemma WordParts(v: U32)
    ensures var w := Word(v); Le32At(w, 0) == v
  {
    hide Le32At;
    assert Word(v) == Le32(v);
  }

  lemma WordDecodes(v: U32, before: seq<Byte>, after: seq<Byte>)
    ensures Le32At(before + Word(v) + after, |before|) == v
  {
    WordParts(v);
    hide Word;
    var s, n := before + Word(v) + after, |before|;
    assert s[n] == Word(v)[0] && s[n + 1] == Word(v)[1] && s[n + 2] == Word(v)[2] && s[n + 3] == Word(v)[3];
  }

  lemma HalfDecodes(v: U16, before: seq<Byte>, after: seq<Byte>)
    ensures Le16At(before + Half(v) + after, |before|) == v
  {
    var s, n := before + Half(v) + after, |before|;
    assert s[n] == Half(v)[0] && s[n + 1] == Half(v)[1];
  }

  lemma WordIn(s: seq<Byte>, at: nat, v: U32, after: seq<Byte>)
    requires at + 4 <= |s| && s == s[..at] + Word(v) + after
    ensures Le32At(s, at) == v
  {
    WordDecodes(v, s[..at], after);
  }

  /** The loader reads each field of a program header from where the ABI puts it. */
  lemma ProgramDecodes(p: ProgramHeader)
    ensures ParsePhdr(EncodeProgram(p)) == Phdr(p.ptype, p.offset, p.vaddr, p.filesz, p.memsz)
  {
    hide Word, Le32At;
    var r := EncodeProgram(p);
    WordIn(r, 0, p.ptype, r[4..]);
    WordIn(r, 4, p.offset, r[8..]);
    WordIn(r, 8, p.vaddr, r[12..]);
    WordIn(r, 16, p.filesz, r[20..]);
    WordIn(r, 20, p.memsz, r[24..]);
  }

  lemma EntryDecodes(h: FileHeader)
    requires |h.ident| == 16
    ensures Le32At(EncodeHeader(h), 24) == h.entry
  {
    hide Word, Half, Le32At;
    var r := EncodeHeader(h);
    WordIn(r, 24, h.entry, r[28..]);
  }

  lemma PhoffDecodes(h: FileHeader)
    requires |h.ident| == 16
    ensures Le32At(EncodeHeader(h), 28) == h.phoff
  {
    hide Word, Half, Le32At;
    var r := EncodeHeader(h);
    WordIn(r, 28, h.phoff, r[32..]);
  }

  lemma PhnumDecodes(h: FileHeader)
    requires |h.ident| == 16
    ensures Le16At(EncodeHeader(h), 44) == h.phnum
  {
    hide Word, Half, Le16At;
    var r := EncodeHeader(h);
    HalfDecodes(h.phnum, r[..44], r[46..]);
    assert r == r[..44] + Half(h.phnum) + r[46..];
  }

  /** And the fields of the file header. */
  lemma HeaderDecodes(h: FileHeader, content: seq<Byte>)
    requires |h.ident| == 16 && |content| >= 52 && content[..52] == EncodeHeader(h)
    ensures ValidHeader(content[..52]) <==> h.ident[..5] == [0x7F, 0x45, 0x4C, 0x46, 1]
    ensures EntryPoint(content) == h.entry && Le32At(content, 28) == h.phoff && PhdrCount(content) == h.phnum
  {
    var r := EncodeHeader(h);
    EntryDecodes(h);
    PhoffDecodes(h);
    PhnumDecodes(h);
    assert forall i :: 0 <= i < 5 ==> r[i] == h.ident[i];
    hide EncodeHeader;
    assert forall i :: 0 <= i < 52 ==> content[i] == r[i];
  }

  // ----- Files made of such records -----

  /** The file starts with the header, and its table, where the header says, holds the program headers. */
  ghost predicate Consists(content: seq<Byte>, h: FileHeader, ps: seq<ProgramHeader>)
  {
    && |h.ident| == 16 && |content| >= 52 && content[..52] == EncodeHeader(h)
    && |ps| == h.phnum && h.phoff + 32 * |ps| <= |content|
    && forall i {:trigger ps[i]} :: 0 <= i < |ps| ==>
      content[h.phoff + 32 * i..h.phoff + 32 * i + 32] == EncodeProgram(ps[i])
  }

  /** What the loader keeps of a program header. */
  function FieldsOf(p: ProgramHeader): Phdr
  {
    Phdr(p.ptype, p.offset, p.vaddr, p.filesz, p.memsz)
  }

  lemma ProgramIs(content: seq<Byte>, h: FileHeader, ps: seq<ProgramHeader>, i: nat)
    requires Consists(content, h, ps) && i < |ps|
    ensures TableStart(content) == h.phoff && PhdrCount(content) == |ps|
    ensures HasPhdr(content, i) && PhdrAt(content, i) == FieldsOf(ps[i])
  {
    HeaderDecodes(h, content);
    ProgramDecodes(ps[i]);
    hide ParsePhdr, EncodeProgram, EncodeHeader, PhdrCount;
    assert h.phoff + 32 * i + 32 <= h.phoff + 32 * |ps|;
  }

  lemma NoPrograms(content: seq<Byte>, h: FileHeader, ps: seq<ProgramHeader>)
    requires Consists(content, h, ps)
    ensures |content| >= 52 && PhdrCount(content) == |ps| && EntryPoint(content) == h.entry
  {
    HeaderDecodes(h, content);
  }

  /** A segment to be loaded. */
  predicate Loadable(p: ProgramHeader)
  {
    p.ptype == 1
  }

  /** A file of such records is accepted if it is of the 32-bit class and every segment to be loaded has bytes
      in the file. */
  lemma RecordsAccepted(content: seq<Byte>, h: FileHeader, ps: seq<ProgramHeader>)
    requires Consists(content, h, ps) && h.ident[..5] == [0x7F, 0x45, 0x4C, 0x46, 1]
    requires forall i :: 0 <= i < |ps| && Loadable(ps[i]) ==>
      0 < ps[i].filesz && ps[i].offset + ps[i].filesz <= |content|
    ensures ElfOk(content)
  {
    HeaderDecodes(h, content);
    hide HasPhdr, PhdrAt, TableStart, EncodeProgram, EncodeHeader, ValidHeader, PhdrCount;
    forall i | 0 <= i < |ps|
      ensures HeaderReadable(content, i)
    {
      ProgramIs(content, h, ps, i);
    }
  }

  /** Every file it accepts starts with the magic number and the 32-bit class. */
  lemma AcceptedStarts(content: seq<Byte>)
    requires ElfOk(content)
    ensures |content| >= 52 && content[..5] == [0x7F, 0x45, 0x4C, 0x46, 1]
  {
    assert content[..52][..5] == content[..5];
    hide AllReadable;
  }
}
