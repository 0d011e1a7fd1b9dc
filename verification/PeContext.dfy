/** The layout of the Portable Executable headers and, on a whole file, what reading them yields. */
module PeFormat {
  import opened Wrappers
  import opened SmbReader

  // ----- Little-endian fields

  function U16(s: seq<byte>, at: nat): nat
    requires at + 2 <= |s|
  {
    s[at] as nat + 0x100 * s[at + 1] as nat
  }

  function U32(s: seq<byte>, at: nat): nat
    requires at + 4 <= |s|
  {
    U16(s, at) + 0x1_0000 * U16(s, at + 2)
  }

  function U64(s: seq<byte>, at: nat): nat
    requires at + 8 <= |s|
  {
    U32(s, at) + 0x1_0000_0000 * U32(s, at + 4)
  }

  lemma FieldsAreSmall(s: seq<byte>, at: nat)
    requires at + 4 <= |s|
    ensures U16(s, at) < 0x1_0000 && U32(s, at) < 0x1_0000_0000
  {
  }

  const DOS_HEADER_SIZE := 64
  const LFANEW_AT := 60
  const SIGNATURE_SIZE := 4
  const COFF_HEADER_SIZE := 20
  const NUMBER_OF_SECTIONS_AT := 2
  const SIZE_OF_OPTIONAL_HEADER_AT := 16
  const OPTIONAL_HEADER_32_SIZE := 96
  const OPTIONAL_HEADER_64_SIZE := 112
  const DATA_DIRECTORY_SIZE := 8
  const SECTION_HEADER_SIZE := 40

  const MAGIC_MZ := 0x5a4d
  const SIGNATURE_NE := 0x454E
  const SIGNATURE_PE := 0x4550
  const MAGIC_PE32 := 0x10b
  const MAGIC_PE64 := 0x20b
  const MAX_DIRECTORIES := 16
  const MAX_SECTIONS := 96

  const NOT_MAPPED := -1
  const E_ALLOCATION_FAILURE := -23
  const E_NOT_A_PE_FILE := -18
  const E_INVALID_LFANEW := -17
  const E_MISSING_COFF_HEADER := -16
  const E_MISSING_OPTIONAL_HEADER := -15
  const E_INVALID_SIGNATURE := -14
  const E_UNSUPPORTED_IMAGE := -13
  const E_TOO_MANY_DIRECTORIES := -9
  const E_TOO_MANY_SECTIONS := -8

  /** The fields of pe_file_t.  A pointer into the buffer is an offset, a null pointer None. */
  datatype PeFile = PeFile(
    dosHdr: Option<nat>, signature: nat, coffHdr: Option<nat>,
    optionalHdr: Option<nat>, optionalType: nat, optionalLength: nat,
    numDirectories: nat, directoriesPtr: Option<nat>, directories: Option<seq<nat>>,
    numSections: nat, sectionsPtr: Option<nat>, sections: Option<seq<nat>>,
    entrypoint: nat, imagebase: nat)

  const EMPTY_PE := PeFile(None, 0, None, None, 0, 0, 0, None, None, 0, None, None, 0, 0)

  /** The addresses of the elements of a table. */
  function Elements(table: nat, count: nat, size: nat): seq<nat> {
    seq(count, i requires 0 <= i => table + i * size)
  }

  // ----- Reading the headers of a file that is there as a whole

  /** A request that a fully loaded buffer answers: in bounds, and not for nothing at the very end. */
  predicate There(s: seq<byte>, at: nat, size: nat) {
    at + size <= |s| && at < |s|
  }

  function EagerParse(s: seq<byte>, pe: PeFile): (int, PeFile) {
    if !There(s, 0, DOS_HEADER_SIZE) then (NOT_MAPPED, pe)
    else
      var pe := pe.(dosHdr := Some(0));
      if U16(s, 0) != MAGIC_MZ then (E_NOT_A_PE_FILE, pe) else EagerSignature(s, U32(s, LFANEW_AT), pe)
  }

  function EagerSignature(s: seq<byte>, at: nat, pe: PeFile): (int, PeFile) {
    if !There(s, at, SIGNATURE_SIZE) then (E_INVALID_LFANEW, pe)
    else
      var pe := pe.(signature := U32(s, at));
      if pe.signature != SIGNATURE_NE && pe.signature != SIGNATURE_PE then (E_INVALID_SIGNATURE, pe)
      else EagerCoff(s, at, pe)
  }

  function EagerCoff(s: seq<byte>, sig: nat, pe: PeFile): (int, PeFile) {
    var coff := sig + SIGNATURE_SIZE;
    var pe := pe.(coffHdr := Some(coff));
    if !There(s, coff, COFF_HEADER_SIZE) then (E_MISSING_COFF_HEADER, pe)
    else
      var opt := coff + COFF_HEADER_SIZE;
      EagerOptional(s, sig, coff, opt,
        pe.(numSections := U16(s, coff + NUMBER_OF_SECTIONS_AT), optionalHdr := Some(opt)))
  }

  function EagerOptional(s: seq<byte>, sig: nat, coff: nat, opt: nat, pe: PeFile): (int, PeFile)
    requires There(s, coff, COFF_HEADER_SIZE)
  {
    if !There(s, opt, 2) then (E_MISSING_OPTIONAL_HEADER, pe)
    else EagerOptionalType(s, sig, coff, opt, pe.(optionalType := U16(s, opt)))
  }

  function EagerOptionalType(s: seq<byte>, sig: nat, coff: nat, opt: nat, pe: PeFile): (int, PeFile)
    requires There(s, coff, COFF_HEADER_SIZE)
  {
    if pe.optionalType == MAGIC_PE32 then
      if !There(s, opt, OPTIONAL_HEADER_32_SIZE) then (E_MISSING_OPTIONAL_HEADER, pe)
      else EagerTables(s, sig, coff, opt, With32(s, opt, pe))
    else if pe.optionalType == MAGIC_PE64 then
      if !There(s, opt, OPTIONAL_HEADER_64_SIZE) then (E_MISSING_OPTIONAL_HEADER, pe)
      else EagerTables(s, sig, coff, opt, With64(s, opt, pe))
    else (E_UNSUPPORTED_IMAGE, pe)
  }

  function With32(s: seq<byte>, opt: nat, pe: PeFile): PeFile
    requires opt + OPTIONAL_HEADER_32_SIZE <= |s|
  {
    pe.(optionalLength := OPTIONAL_HEADER_32_SIZE, numDirectories := U32(s, opt + 92),
        entrypoint := U32(s, opt + 16), imagebase := U32(s, opt + 28))
  }

  function With64(s: seq<byte>, opt: nat, pe: PeFile): PeFile
    requires opt + OPTIONAL_HEADER_64_SIZE <= |s|
  {
    pe.(optionalLength := OPTIONAL_HEADER_64_SIZE, numDirectories := U32(s, opt + 108),
        entrypoint := U32(s, opt + 16), imagebase := U64(s, opt + 24))
  }

  function EagerTables(s: seq<byte>, sig: nat, coff: nat, opt: nat, pe: PeFile): (int, PeFile)
    requires There(s, coff, COFF_HEADER_SIZE)
  {
    if pe.numDirectories > MAX_DIRECTORIES then (E_TOO_MANY_DIRECTORIES, pe)
    else if pe.numSections > MAX_SECTIONS then (E_TOO_MANY_SECTIONS, pe)
    else
      var dirs := opt + pe.optionalLength;
      var pe := pe.(directoriesPtr := Some(dirs));
      if !There(s, dirs, DATA_DIRECTORY_SIZE * pe.numDirectories) then (E_ALLOCATION_FAILURE, pe)
      else
        var secs := sig + SIGNATURE_SIZE + COFF_HEADER_SIZE + U16(s, coff + SIZE_OF_OPTIONAL_HEADER_AT);
        var pe := pe.(sectionsPtr := Some(secs));
        if !There(s, secs, SECTION_HEADER_SIZE * pe.numSections) then (E_ALLOCATION_FAILURE, pe)
        else (0, WithElements(pe, dirs, secs))
  }

  /** Without elements a table's pointer becomes null and its array stays what it was. */
  function WithElements(pe: PeFile, dirs: nat, secs: nat): PeFile {
    var pe :=
      if pe.numDirectories > 0 then pe.(directories := Some(Elements(dirs, pe.numDirectories, DATA_DIRECTORY_SIZE)))
      else pe.(directoriesPtr := None);
    if pe.numSections > 0 then pe.(sections := Some(Elements(secs, pe.numSections, SECTION_HEADER_SIZE)))
    else pe.(sectionsPtr := None)
  }

  /** Both tables lie inside the file and are no longer than the format allows, and a table is null
      exactly when it is empty. */
  ghost predicate TablesInside(s: seq<byte>, pe: PeFile) {
    && pe.numDirectories <= MAX_DIRECTORIES && pe.numSections <= MAX_SECTIONS
    && (pe.directories.None? <==> pe.numDirectories == 0)
    && (pe.directories.Some? ==> |pe.directories.value| == pe.numDirectories)
    && (forall i :: pe.directories.Some? && 0 <= i < pe.numDirectories ==>
          pe.directories.value[i] + DATA_DIRECTORY_SIZE <= |s|)
    && (pe.sections.None? <==> pe.numSections == 0)
    && (pe.sections.Some? ==> |pe.sections.value| == pe.numSections && SectionsThere(s, pe.sections.value))
  }

  lemma TablesSucceed(s: seq<byte>, sig: nat, coff: nat, opt: nat, pe: PeFile)
    requires There(s, coff, COFF_HEADER_SIZE) && pe.directories.None? && pe.sections.None?
    requires EagerTables(s, sig, coff, opt, pe).0 == 0
    ensures TablesInside(s, EagerTables(s, sig, coff, opt, pe).1)
  {
    var r := EagerTables(s, sig, coff, opt, pe).1;
    var dirs := opt + pe.optionalLength;
    var secs := sig + SIGNATURE_SIZE + COFF_HEADER_SIZE + U16(s, coff + SIZE_OF_OPTIONAL_HEADER_AT);
    assert r.numDirectories > 0 ==> r.directories == Some(Elements(dirs, r.numDirectories, DATA_DIRECTORY_SIZE));
    assert r.numSections > 0 ==> r.sections == Some(Elements(secs, r.numSections, SECTION_HEADER_SIZE));
  }

  lemma OptionalSucceeds(s: seq<byte>, sig: nat, coff: nat, opt: nat, pe: PeFile)
    requires There(s, coff, COFF_HEADER_SIZE) && pe.directories.None? && pe.sections.None?
    requires EagerOptional(s, sig, coff, opt, pe).0 == 0
    ensures TablesInside(s, EagerOptional(s, sig, coff, opt, pe).1)
  {
    var pe := pe.(optionalType := U16(s, opt));
    if pe.optionalType == MAGIC_PE32 {
      TablesSucceed(s, sig, coff, opt, With32(s, opt, pe));
    } else {
      TablesSucceed(s, sig, coff, opt, With64(s, opt, pe));
    }
  }

  /** What a successful parse promises about the file. */
  lemma ParseSucceeds(s: seq<byte>)
    requires EagerParse(s, EMPTY_PE).0 == 0
    ensures TablesInside(s, EagerParse(s, EMPTY_PE).1)
  {
    var sig := U32(s, LFANEW_AT);
    var coff := sig + SIGNATURE_SIZE;
    var opt := coff + COFF_HEADER_SIZE;
    var pe := EMPTY_PE.(dosHdr := Some(0), signature := U32(s, sig), coffHdr := Some(coff),
                        numSections := U16(s, coff + NUMBER_OF_SECTIONS_AT), optionalHdr := Some(opt));
    assert EagerParse(s, EMPTY_PE) == EagerOptional(s, sig, coff, opt, pe);
    OptionalSucceeds(s, sig, coff, opt, pe);
  }

  // ----- From relative virtual addresses to file offsets

  const U64_LIMIT := 0x1_0000_0000_0000_0000

  function VirtualSize(s: seq<byte>, sec: nat): nat
    requires sec + SECTION_HEADER_SIZE <= |s|
  {
    var size := U32(s, sec + 8);
    if size == 0 then U32(s, sec + 16) else size
  }

  function VirtualAddress(s: seq<byte>, sec: nat): nat
    requires sec + SECTION_HEADER_SIZE <= |s|
  {
    U32(s, sec + 12)
  }

  function PointerToRawData(s: seq<byte>, sec: nat): nat
    requires sec + SECTION_HEADER_SIZE <= |s|
  {
    U32(s, sec + 20)
  }

  ghost predicate SectionsThere(s: seq<byte>, secs: seq<nat>) {
    forall i :: 0 <= i < |secs| ==> secs[i] + SECTION_HEADER_SIZE <= |s|
  }

  ghost predicate Holds(s: seq<byte>, sec: nat, rva: nat)
    requires sec + SECTION_HEADER_SIZE <= |s|
  {
    VirtualAddress(s, sec) <= rva < VirtualAddress(s, sec) + VirtualSize(s, sec)
  }

  /** The file offset of an address, in 64-bit arithmetic: through the first section that holds the
      address; failing that, through the only section; failing that, the address itself. */
  ghost predicate IsOffsetOf(s: seq<byte>, sections: Option<seq<nat>>, rva: nat, ofs: nat)
    requires sections.Some? ==> SectionsThere(s, sections.value)
  {
    if rva == 0 || sections.None? then ofs == 0
    else
      var secs := sections.value;
      || (exists i :: 0 <= i < |secs| && Holds(s, secs[i], rva)
            && (forall j :: 0 <= j < i ==> !Holds(s, secs[j], rva))
            && ofs == Through(s, secs[i], rva))
      || ((forall i :: 0 <= i < |secs| ==> !Holds(s, secs[i], rva))
            && ofs == if |secs| == 1 then Through(s, secs[0], rva) else rva)
  }

  function Through(s: seq<byte>, sec: nat, rva: nat): nat
    requires sec + SECTION_HEADER_SIZE <= |s|
  {
    (rva - VirtualAddress(s, sec) + PointerToRawData(s, sec)) % U64_LIMIT
  }

  /** An address has one file offset. */
  lemma OffsetIsUnique(s: seq<byte>, sections: Option<seq<nat>>, rva: nat, ofs: nat, ofs': nat)
    requires sections.Some? ==> SectionsThere(s, sections.value)
    requires IsOffsetOf(s, sections, rva, ofs) && IsOffsetOf(s, sections, rva, ofs')
    ensures ofs == ofs'
  {
  }
}

/** The reader of PE headers over the lazy file cache (pe_context). */
module PeContext {
  import opened Wrappers
  import opened IntervalSet
  import opened SmbReader
  import opened FileMapping
  import opened PeFormat
  import opened ResourceHeap

  /** Where a range is loaded, a field read from the buffer is the field of the file. */
  lemma LoadedFields(data: seq<byte>, content: seq<byte>, chunks: seq<Chunk>, at: nat, size: nat)
    requires |data| == |content| && at + size <= |data|
    requires forall x :: 0 <= x < |data| && Covers(chunks, x) ==> data[x] == content[x]
    requires CoversAll(chunks, at, at + size)
    ensures data[at..at + size] == content[at..at + size]
    ensures forall x :: at <= x < at + size ==> data[x] == content[x]
  {
    forall x | at <= x < at + size
      ensures data[x] == content[x]
    {
      assert Covers(chunks, x);
    }
  }

  lemma {:induction false} ElementFits(i: nat, count: nat, size: nat)
    requires i < count
    ensures i * size + size <= size * count
    decreases count
  {
    assert size * count == size * (count - 1) + size;
    if i < count - 1 {
      ElementFits(i, count - 1, size);
    }
  }

  lemma ElementsLoaded(chunks: seq<Chunk>, n: nat, table: nat, count: nat, size: nat)
    requires CoversAll(chunks, table, table + size * count) && table + size * count <= n
    ensures forall i :: 0 <= i < count ==>
              var e := Elements(table, count, size)[i]; e + size <= n && CoversAll(chunks, e, e + size)
  {
    forall i | 0 <= i < count
      ensures var e := Elements(table, count, size)[i]; table <= e && e + size <= table + size * count
    {
      ElementFits(i, count, size);
    }
  }

  class PeContext {
    const fm: FileMapper
    const heap: NodeHeap
    var pe: PeFile

    ghost predicate Valid()
      reads this, fm, fm.data, fm.reader
    {
      fm.Valid()
    }

    constructor (reader: SmbClient, heap: NodeHeap)
      requires |reader.content| < FILE_LIMIT && reader.requested == []
      ensures Valid() && fresh(fm) && fresh(fm.data) && fm.reader == reader
      ensures pe == EMPTY_PE && fm.chunks == [] && this.heap == heap
    {
      fm := new FileMapper(reader);
      this.heap := heap;
      pe := EMPTY_PE;
    }

    ghost predicate Loaded(at: nat, size: nat)
      reads fm
    {
      CoversAll(fm.chunks, at, at + size)
    }

    /** map_chunk, with what it lets the parser read. */
    method Map(at: nat, size: nat) returns (ok: bool)
      requires Valid() && at + size < SIZE_LIMIT
      modifies fm`chunks, fm.data, fm.reader`cursor, fm.reader`requested
      ensures Valid()
      ensures ok ==> There(fm.reader.content, at, size) && Loaded(at, size)
      ensures fm.reader.reliable ==> ok == There(fm.reader.content, at, size)
      ensures forall x :: Covers(old(fm.chunks), x) ==> Covers(fm.chunks, x)
    {
      ok := fm.MapChunk(at, size);
    }

    /** Reading a loaded 16-bit field of the buffer. */
    method Get16(at: nat) returns (v: nat)
      requires Valid() && at + 2 <= fm.data.Length && Loaded(at, 2)
      ensures v == U16(fm.reader.content, at)
    {
      LoadedFields(fm.data[..], fm.reader.content, fm.chunks, at, 2);
      v := U16(fm.data[..], at);
    }

    method Get32(at: nat) returns (v: nat)
      requires Valid() && at + 4 <= fm.data.Length && Loaded(at, 4)
      ensures v == U32(fm.reader.content, at)
    {
      LoadedFields(fm.data[..], fm.reader.content, fm.chunks, at, 4);
      v := U32(fm.data[..], at);
    }

    method Get64(at: nat) returns (v: nat)
      requires Valid() && at + 8 <= fm.data.Length && Loaded(at, 8)
      ensures v == U64(fm.reader.content, at)
    {
      LoadedFields(fm.data[..], fm.reader.content, fm.chunks, at, 8);
      v := U64(fm.data[..], at);
    }

    /** pe_context::parse, as the code has it: map a range, then read the buffer.  Whatever the
        reader does, success yields what reading the whole file would; and with a reader that never
        fails the result and every field are those of the whole file.  After success the tables are
        loaded. */
    method Parse() returns (code: int)
      requires Valid()
      modifies this`pe, fm`chunks, fm.data, fm.reader`cursor, fm.reader`requested
      ensures Valid()
      ensures code == 0 ==> (code, pe) == EagerParse(fm.reader.content, old(pe))
      ensures fm.reader.reliable ==> (code, pe) == EagerParse(fm.reader.content, old(pe))
      ensures code == 0 ==> TablesLoaded()
    {
      var ok := Map(0, DOS_HEADER_SIZE);
      if !ok {
        return NOT_MAPPED;
      }
      pe := pe.(dosHdr := Some(0));
      var magic := Get16(0);
      if magic != MAGIC_MZ {
        return E_NOT_A_PE_FILE;
      }
      var sig := Get32(LFANEW_AT);
      FieldsAreSmall(fm.reader.content, LFANEW_AT);
      code := ParseSignature(sig);
    }

    method ParseSignature(sig: nat) returns (code: int)
      requires Valid() && sig < 0x1_0000_0000
      modifies this`pe, fm`chunks, fm.data, fm.reader`cursor, fm.reader`requested
      ensures Valid()
      ensures var eager := EagerSignature(fm.reader.content, sig, old(pe));
              code == 0 || fm.reader.reliable ==> (code, pe) == eager
      ensures code == 0 ==> TablesLoaded()
    {
      var ok := Map(sig, SIGNATURE_SIZE);
      if !ok {
        return E_INVALID_LFANEW;
      }
      var signature := Get32(sig);
      pe := pe.(signature := signature);
      if pe.signature != SIGNATURE_NE && pe.signature != SIGNATURE_PE {
        return E_INVALID_SIGNATURE;
      }
      code := ParseCoff(sig);
    }

    method ParseCoff(sig: nat) returns (code: int)
      requires Valid() && sig < 0x1_0000_0000
      modifies this`pe, fm`chunks, fm.data, fm.reader`cursor, fm.reader`requested
      ensures Valid()
      ensures var eager := EagerCoff(fm.reader.content, sig, old(pe));
              code == 0 || fm.reader.reliable ==> (code, pe) == eager
      ensures code == 0 ==> TablesLoaded()
    {
      var coff := sig + SIGNATURE_SIZE;
      pe := pe.(coffHdr := Some(coff));
      var ok := Map(coff, COFF_HEADER_SIZE);
      if !ok {
        return E_MISSING_COFF_HEADER;
      }
      var opt := coff + COFF_HEADER_SIZE;
      var numSections := Get16(coff + NUMBER_OF_SECTIONS_AT);
      pe := pe.(numSections := numSections, optionalHdr := Some(opt));
      code := ParseOptional(sig, coff, opt);
    }

    ghost predicate TablesLoaded()
      reads this, fm
    {
      && (pe.numSections > 0 ==>
            pe.sections.Some? && |pe.sections.value| == pe.numSections && SectionsLoaded(pe.sections.value))
      && (pe.numDirectories > 0 ==>
            && pe.directories.Some? && |pe.directories.value| == pe.numDirectories
            && DirectoriesLoaded(pe.directories.value))
    }

    ghost predicate SectionsLoaded(secs: seq<nat>)
      reads fm
    {
      forall i :: 0 <= i < |secs| ==>
        secs[i] + SECTION_HEADER_SIZE <= fm.data.Length && Loaded(secs[i], SECTION_HEADER_SIZE)
    }

    ghost predicate DirectoriesLoaded(dirs: seq<nat>)
      reads fm
    {
      forall i :: 0 <= i < |dirs| ==>
        dirs[i] + DATA_DIRECTORY_SIZE <= fm.data.Length && Loaded(dirs[i], DATA_DIRECTORY_SIZE)
    }

    method ParseOptional(sig: nat, coff: nat, opt: nat) returns (code: int)
      requires Valid() && opt == coff + COFF_HEADER_SIZE && coff == sig + SIGNATURE_SIZE && sig < 0x1_0000_0000
      requires There(fm.reader.content, coff, COFF_HEADER_SIZE) && Loaded(coff, COFF_HEADER_SIZE)
      modifies this`pe, fm`chunks, fm.data, fm.reader`cursor, fm.reader`requested
      ensures Valid()
      ensures var eager := EagerOptional(fm.reader.content, sig, coff, opt, old(pe));
              code == 0 || fm.reader.reliable ==> (code, pe) == eager
      ensures code == 0 ==> TablesLoaded()
    {
      var ok := Map(opt, 2);
      if !ok {
        return E_MISSING_OPTIONAL_HEADER;
      }
      var optionalType := Get16(opt);
      pe := pe.(optionalType := optionalType);
      code := ParseOptionalType(sig, coff, opt);
    }

    method ParseOptionalType(sig: nat, coff: nat, opt: nat) returns (code: int)
      requires Valid() && opt == coff + COFF_HEADER_SIZE && coff == sig + SIGNATURE_SIZE && sig < 0x1_0000_0000
      requires There(fm.reader.content, coff, COFF_HEADER_SIZE) && Loaded(coff, COFF_HEADER_SIZE)
      modifies this`pe, fm`chunks, fm.data, fm.reader`cursor, fm.reader`requested
      ensures Valid()
      ensures var eager := EagerOptionalType(fm.reader.content, sig, coff, opt, old(pe));
              code == 0 || fm.reader.reliable ==> (code, pe) == eager
      ensures code == 0 ==> TablesLoaded()
    {
      var ok;
      if pe.optionalType == MAGIC_PE32 {
        ok := Map(opt, OPTIONAL_HEADER_32_SIZE);
        if !ok {
          return E_MISSING_OPTIONAL_HEADER;
        }
        ParseOptional32(opt);
      } else if pe.optionalType == MAGIC_PE64 {
        ok := Map(opt, OPTIONAL_HEADER_64_SIZE);
        if !ok {
          return E_MISSING_OPTIONAL_HEADER;
        }
        ParseOptional64(opt);
      } else {
        return E_UNSUPPORTED_IMAGE;
      }
      code := ParseTables(sig, coff, opt);
    }

    /** optional_header_parse for the PE32 header. */
    method ParseOptional32(opt: nat)
      requires Valid() && opt + OPTIONAL_HEADER_32_SIZE <= fm.data.Length && Loaded(opt, OPTIONAL_HEADER_32_SIZE)
      modifies this`pe
      ensures pe == With32(fm.reader.content, opt, old(pe))
    {
      var directories := Get32(opt + 92);
      var entry := Get32(opt + 16);
      var base := Get32(opt + 28);
      pe := pe.(optionalLength := OPTIONAL_HEADER_32_SIZE, numDirectories := directories,
                entrypoint := entry, imagebase := base);
    }

    /** optional_header_parse for the PE32+ header. */
    method ParseOptional64(opt: nat)
      requires Valid() && opt + OPTIONAL_HEADER_64_SIZE <= fm.data.Length && Loaded(opt, OPTIONAL_HEADER_64_SIZE)
      modifies this`pe
      ensures pe == With64(fm.reader.content, opt, old(pe))
    {
      var directories := Get32(opt + 108);
      var entry := Get32(opt + 16);
      var base := Get64(opt + 24);
      pe := pe.(optionalLength := OPTIONAL_HEADER_64_SIZE, numDirectories := directories,
                entrypoint := entry, imagebase := base);
    }

    method ParseTables(sig: nat, coff: nat, opt: nat) returns (code: int)
      requires Valid() && opt == coff + COFF_HEADER_SIZE && coff == sig + SIGNATURE_SIZE && sig < 0x1_0000_0000
      requires There(fm.reader.content, coff, COFF_HEADER_SIZE) && Loaded(coff, COFF_HEADER_SIZE)
      requires pe.optionalLength <= OPTIONAL_HEADER_64_SIZE && There(fm.reader.content, opt, pe.optionalLength)
      modifies this`pe, fm`chunks, fm.data, fm.reader`cursor, fm.reader`requested
      ensures Valid()
      ensures var eager := EagerTables(fm.reader.content, sig, coff, opt, old(pe));
              code == 0 || fm.reader.reliable ==> (code, pe) == eager
      ensures code == 0 ==> TablesLoaded()
    {
      if pe.numDirectories > MAX_DIRECTORIES {
        return E_TOO_MANY_DIRECTORIES;
      }
      if pe.numSections > MAX_SECTIONS {
        return E_TOO_MANY_SECTIONS;
      }
      var dirs := opt + pe.optionalLength;
      pe := pe.(directoriesPtr := Some(dirs));
      var ok := Map(dirs, DATA_DIRECTORY_SIZE * pe.numDirectories);
      if !ok {
        return E_ALLOCATION_FAILURE;
      }
      var sizeOfOptional := Get16(coff + SIZE_OF_OPTIONAL_HEADER_AT);
      var secs := sig + SIGNATURE_SIZE + COFF_HEADER_SIZE + sizeOfOptional;
      pe := pe.(sectionsPtr := Some(secs));
      ok := Map(secs, SECTION_HEADER_SIZE * pe.numSections);
      if !ok {
        return E_ALLOCATION_FAILURE;
      }
      AllocateElements(dirs, secs);
      return 0;
    }

    method AllocateElements(dirs: nat, secs: nat)
      requires dirs + DATA_DIRECTORY_SIZE * pe.numDirectories <= fm.data.Length
      requires secs + SECTION_HEADER_SIZE * pe.numSections <= fm.data.Length
      requires Loaded(dirs, DATA_DIRECTORY_SIZE * pe.numDirectories) &&
               Loaded(secs, SECTION_HEADER_SIZE * pe.numSections)
      modifies this`pe
      ensures pe == WithElements(old(pe), dirs, secs) && TablesLoaded()
    {
      pe := WithElements(pe, dirs, secs);
      ElementsLoaded(fm.chunks, fm.data.Length, dirs, pe.numDirectories, DATA_DIRECTORY_SIZE);
      ElementsLoaded(fm.chunks, fm.data.Length, secs, pe.numSections, SECTION_HEADER_SIZE);
    }

    method TrySection(sec: nat, rva: nat) returns (found: bool, ofs: nat)
      requires Valid() && sec + SECTION_HEADER_SIZE <= fm.data.Length && Loaded(sec, SECTION_HEADER_SIZE)
      ensures found == Holds(fm.reader.content, sec, rva)
      ensures found ==> ofs == Through(fm.reader.content, sec, rva)
    {
      var size := Get32(sec + 8);
      if size == 0 {
        size := Get32(sec + 16);
      }
      var va := Get32(sec + 12);
      if va <= rva && va + size > rva {
        var raw := Get32(sec + 20);
        return true, (rva - va + raw) % U64_LIMIT;
      }
      return false, 0;
    }

    /** pe_rva2ofs: over tables that are loaded, the offset that the whole file gives. */
    method Rva2Ofs(rva: nat) returns (ofs: nat)
      requires Valid() && rva < U64_LIMIT
      requires pe.sections.Some? ==> |pe.sections.value| == pe.numSections && SectionsLoaded(pe.sections.value)
      ensures pe.sections.Some? ==> SectionsThere(fm.reader.content, pe.sections.value)
      ensures IsOffsetOf(fm.reader.content, pe.sections, rva, ofs)
    {
      if rva == 0 || pe.sections.None? {
        return 0;
      }
      var secs, content := pe.sections.value, fm.reader.content;
      for i := 0 to |secs|
        invariant forall j :: 0 <= j < i ==> !Holds(content, secs[j], rva)
      {
        var found;
        found, ofs := TrySection(secs[i], rva);
        if found {
          return;
        }
      }
      if |secs| == 1 {
        var va := Get32(secs[0] + 12);
        var raw := Get32(secs[0] + 20);
        return (rva - va + raw) % U64_LIMIT;
      }
      return rva;
    }
  }
}
