/** Numbers as little-endian bytes, and where blocks of bytes lie in a file. */
module ByteLayout {
  import opened SmbReader
  import opened PeFormat

  /** The number in so many bytes, the least significant first; what does not fit is cut off. */
  function Le(n: nat, v: nat): (r: seq<byte>)
    ensures |r| == n
  {
    if n == 0 then [] else [(v % 0x100) as byte] + Le(n - 1, v / 0x100)
  }

  /** The block stands in the file at the offset. */
  ghost predicate Lies(s: seq<byte>, at: nat, block: seq<byte>) {
    at + |block| <= |s| && s[at..at + |block|] == block
  }

  lemma LiesSplit(s: seq<byte>, at: nat, a: seq<byte>, b: seq<byte>)
    requires Lies(s, at, a + b)
    ensures Lies(s, at, a) && Lies(s, at + |a|, b)
  {
    assert s[at..at + |a + b|][..|a|] == a && s[at..at + |a + b|][|a|..] == b;
  }

  lemma LiesIn(front: seq<byte>, block: seq<byte>, back: seq<byte>)
    ensures Lies(front + block + back, |front|, block)
  {
  }

  lemma FirstByte(s: seq<byte>, at: nat, n: nat, v: nat)
    requires n > 0 && Lies(s, at, Le(n, v))
    ensures s[at] as nat == v % 0x100 && v == v % 0x100 + 0x100 * (v / 0x100) && Lies(s, at + 1, Le(n - 1, v / 0x100))
  {
    LiesSplit(s, at, [(v % 0x100) as byte], Le(n - 1, v / 0x100));
    assert s[at..at + 1][0] == s[at];
  }

  /** Two bytes, and where the rest of the number lies. */
  lemma FirstTwo(s: seq<byte>, at: nat, n: nat, v: nat) returns (rest: nat)
    requires n > 1 && Lies(s, at, Le(n, v))
    ensures at + 2 <= |s| && v == U16(s, at) + 0x1_0000 * rest && Lies(s, at + 2, Le(n - 2, rest))
  {
    FirstByte(s, at, n, v);
    FirstByte(s, at + 1, n - 1, v / 0x100);
    rest := v / 0x100 / 0x100;
  }

  lemma Read16(s: seq<byte>, at: nat, v: nat)
    requires v < 0x1_0000 && Lies(s, at, Le(2, v))
    ensures at + 2 <= |s| && U16(s, at) == v
  {
    var _ := FirstTwo(s, at, 2, v);
  }

  lemma FirstFour(s: seq<byte>, at: nat, n: nat, v: nat) returns (rest: nat)
    requires n > 3 && Lies(s, at, Le(n, v))
    ensures at + 4 <= |s| && v == U32(s, at) + 0x1_0000_0000 * rest && Lies(s, at + 4, Le(n - 4, rest))
  {
    rest := FirstTwo(s, at, n, v);
    rest := FirstTwo(s, at + 2, n - 2, rest);
  }

  lemma Read32(s: seq<byte>, at: nat, v: nat)
    requires v < 0x1_0000_0000 && Lies(s, at, Le(4, v))
    ensures at + 4 <= |s| && U32(s, at) == v
  {
    var _ := FirstFour(s, at, 4, v);
  }

  lemma Read64(s: seq<byte>, at: nat, v: nat)
    requires v < 0x1_0000_0000_0000_0000 && Lies(s, at, Le(8, v))
    ensures at + 8 <= |s| && U64(s, at) == v
  {
    var rest := FirstFour(s, at, 8, v);
    rest := FirstFour(s, at + 4, 4, rest);
  }
}

/** A file with known headers, written field by field in the order and the sizes of the PE format, and what the
    parser finds in it. */
module PeImage {
  import opened Wrappers
  import opened SmbReader
  import opened PeFormat
  import opened ByteLayout

  type SectionName = s: seq<byte> | |s| == 8 witness [0, 0, 0, 0, 0, 0, 0, 0]

  // the rest of the DOS header, from e_cblp to e_res2
  type DosFields = s: seq<byte> | |s| == 58 witness seq(58, _ => 0)

  datatype CoffFields = CoffFields(
    machine: nat, timeDateStamp: nat, pointerToSymbolTable: nat, numberOfSymbols: nat, characteristics: nat)

  datatype OptionalFields = OptionalFields(
    majorLinkerVersion: nat, minorLinkerVersion: nat,
    sizeOfCode: nat, sizeOfInitializedData: nat, sizeOfUninitializedData: nat,
    addressOfEntryPoint: nat, baseOfCode: nat, baseOfData: nat, imageBase: nat,
    sectionAlignment: nat, fileAlignment: nat,
    majorOperatingSystemVersion: nat, minorOperatingSystemVersion: nat,
    majorImageVersion: nat, minorImageVersion: nat, majorSubsystemVersion: nat, minorSubsystemVersion: nat,
    win32VersionValue: nat, sizeOfImage: nat, sizeOfHeaders: nat, checkSum: nat,
    subsystem: nat, dllCharacteristics: nat,
    sizeOfStackReserve: nat, sizeOfStackCommit: nat, sizeOfHeapReserve: nat, sizeOfHeapCommit: nat,
    loaderFlags: nat)

  datatype DataDirectory = DataDirectory(virtualAddress: nat, size: nat)

  datatype Section = Section(
    name: SectionName, virtualSize: nat, virtualAddress: nat, sizeOfRawData: nat, pointerToRawData: nat,
    pointerToRelocations: nat, pointerToLinenumbers: nat, numberOfRelocations: nat, numberOfLinenumbers: nat,
    characteristics: nat)

  /** The headers of a file: PE32+ when wide.  The stub stands before the signature; the slack between the data
      directories and the section table, as part of the optional header's size. */
  datatype Headers = Headers(
    wide: bool, dos: DosFields, stub: seq<byte>, signature: nat, coff: CoffFields, optional: OptionalFields,
    directories: seq<DataDirectory>, slack: seq<byte>, sections: seq<Section>)

  // ----- The writer

  function Dos(h: Headers): (r: seq<byte>)
    ensures |r| == 64
  {
    Le(2, 0x5A4D) + h.dos + Le(4, 64 + |h.stub|)
  }

  function Coff(h: Headers): (r: seq<byte>)
    ensures |r| == 20
  {
    var f := h.coff;
    Le(2, f.machine) + Le(2, |h.sections|) + Le(4, f.timeDateStamp) + Le(4, f.pointerToSymbolTable) +
    Le(4, f.numberOfSymbols) + Le(2, SizeOfOptionalHeader(h)) + Le(2, f.characteristics)
  }

  function SizeOfOptionalHeader(h: Headers): nat {
    |Optional(h)| + |Table(h.directories, DirectoryBytes)| + |h.slack|
  }

  function Standard(h: Headers): (r: seq<byte>)
    ensures |r| == 24
  {
    var f := h.optional;
    Le(2, if h.wide then 0x20B else 0x10B) + Le(1, f.majorLinkerVersion) + Le(1, f.minorLinkerVersion) +
    Le(4, f.sizeOfCode) + Le(4, f.sizeOfInitializedData) + Le(4, f.sizeOfUninitializedData) +
    Le(4, f.addressOfEntryPoint) + Le(4, f.baseOfCode)
  }

  /** A wide header has no base of data. */
  function Bases(h: Headers): (r: seq<byte>)
    ensures |r| == 8
  {
    if h.wide then Le(8, h.optional.imageBase) else Le(4, h.optional.baseOfData) + Le(4, h.optional.imageBase)
  }

  function Versions(f: OptionalFields): (r: seq<byte>)
    ensures |r| == 40
  {
    Le(4, f.sectionAlignment) + Le(4, f.fileAlignment) +
    Le(2, f.majorOperatingSystemVersion) + Le(2, f.minorOperatingSystemVersion) +
    Le(2, f.majorImageVersion) + Le(2, f.minorImageVersion) +
    Le(2, f.majorSubsystemVersion) + Le(2, f.minorSubsystemVersion) +
    Le(4, f.win32VersionValue) + Le(4, f.sizeOfImage) + Le(4, f.sizeOfHeaders) + Le(4, f.checkSum) +
    Le(2, f.subsystem) + Le(2, f.dllCharacteristics)
  }

  function Reserves(f: OptionalFields, width: nat): (r: seq<byte>)
    ensures |r| == 4 * width
  {
    Le(width, f.sizeOfStackReserve) + Le(width, f.sizeOfStackCommit) +
    Le(width, f.sizeOfHeapReserve) + Le(width, f.sizeOfHeapCommit)
  }

  function Optional(h: Headers): (r: seq<byte>)
    ensures |r| == if h.wide then 112 else 96
  {
    Standard(h) + Bases(h) + Versions(h.optional) + Reserves(h.optional, if h.wide then 8 else 4) +
    Le(4, h.optional.loaderFlags) + Le(4, |h.directories|)
  }

  function DirectoryBytes(d: DataDirectory): (r: seq<byte>)
    ensures |r| == 8
  {
    Le(4, d.virtualAddress) + Le(4, d.size)
  }

  function SectionBytes(x: Section): (r: seq<byte>)
    ensures |r| == 40
  {
    x.name + Le(4, x.virtualSize) + Le(4, x.virtualAddress) + Le(4, x.sizeOfRawData) + Le(4, x.pointerToRawData) +
    Le(4, x.pointerToRelocations) + Le(4, x.pointerToLinenumbers) +
    Le(2, x.numberOfRelocations) + Le(2, x.numberOfLinenumbers) + Le(4, x.characteristics)
  }

  function Table<T>(xs: seq<T>, f: T -> seq<byte>): seq<byte> {
    if xs == [] then [] else f(xs[0]) + Table(xs[1..], f)
  }

  function Image(h: Headers): seq<byte> {
    Dos(h) + h.stub + Le(4, h.signature) + Coff(h) + Optional(h) +
    Table(h.directories, DirectoryBytes) + h.slack + Table(h.sections, SectionBytes)
  }

  // ----- What the fields can hold

  ghost predicate Fits32(v: nat) {
    v < 0x1_0000_0000
  }

  ghost predicate SectionFits(x: Section) {
    && Fits32(x.virtualSize) && Fits32(x.virtualAddress) && Fits32(x.sizeOfRawData) && Fits32(x.pointerToRawData)
  }

  ghost predicate WellFormed(h: Headers) {
    && Fits32(64 + |h.stub|) && (h.signature == SIGNATURE_PE || h.signature == SIGNATURE_NE)
    && |h.sections| < 0x1_0000 && SectionsAt(h) - OptionalAt(h) < 0x1_0000
    && Fits32(h.optional.addressOfEntryPoint)
    && (if h.wide then h.optional.imageBase < 0x1_0000_0000_0000_0000 else Fits32(h.optional.imageBase))
    && (forall i :: 0 <= i < |h.directories| ==>
          Fits32(h.directories[i].virtualAddress) && Fits32(h.directories[i].size))
    && (forall i :: 0 <= i < |h.sections| ==> SectionFits(h.sections[i]))
  }

  // ----- Where everything lies

  lemma {:induction false} TableEntry<T>(s: seq<byte>, at: nat, xs: seq<T>, f: T -> seq<byte>, n: nat, i: nat)
    requires (forall x :: |f(x)| == n) && Lies(s, at, Table(xs, f)) && i < |xs|
    ensures Lies(s, at + i * n, f(xs[i]))
    decreases i
  {
    LiesSplit(s, at, f(xs[0]), Table(xs[1..], f));
    if i > 0 {
      TableEntry(s, at + n, xs[1..], f, n, i - 1);
      assert at + n + (i - 1) * n == at + i * n;
    }
  }

  lemma {:induction false} TableLength<T>(xs: seq<T>, f: T -> seq<byte>, n: nat)
    requires forall x :: |f(x)| == n
    ensures |Table(xs, f)| == n * |xs|
  {
    if xs != [] {
      TableLength(xs[1..], f, n);
      assert n * |xs| == n * |xs[1..]| + n;
    }
  }

  function SignatureAt(h: Headers): nat {
    64 + |h.stub|
  }

  function OptionalAt(h: Headers): nat {
    SignatureAt(h) + 24
  }

  function DirectoriesAt(h: Headers): nat {
    OptionalAt(h) + if h.wide then 112 else 96
  }

  function SectionsAt(h: Headers): nat {
    DirectoriesAt(h) + 8 * |h.directories| + |h.slack|
  }

  /** Every part of the image at its place. */
  lemma PartsLie(h: Headers, s: seq<byte>)
    requires Image(h) <= s
    ensures Lies(s, 0, Dos(h)) && Lies(s, SignatureAt(h), Le(4, h.signature)) && Lies(s, SignatureAt(h) + 4, Coff(h))
    ensures Lies(s, OptionalAt(h), Optional(h)) && Lies(s, DirectoriesAt(h), Table(h.directories, DirectoryBytes))
    ensures Lies(s, SectionsAt(h), Table(h.sections, SectionBytes)) && SectionsAt(h) + 40 * |h.sections| == |Image(h)|
  {
    TableLength(h.directories, DirectoryBytes, 8);
    TableLength(h.sections, SectionBytes, 40);
    assert Lies(s, 0, Image(h));
    ImageSplits(s, Dos(h), h.stub, Le(4, h.signature), Coff(h), Optional(h), Table(h.directories, DirectoryBytes),
                h.slack, Table(h.sections, SectionBytes));
  }

  lemma ImageSplits(s: seq<byte>, dos: seq<byte>, stub: seq<byte>, signature: seq<byte>, coff: seq<byte>,
                    optional: seq<byte>, directories: seq<byte>, slack: seq<byte>, sections: seq<byte>)
    requires Lies(s, 0, dos + stub + signature + coff + optional + directories + slack + sections)
    ensures var sig := |dos| + |stub|;
            var opt := sig + |signature| + |coff|;
            && Lies(s, 0, dos) && Lies(s, sig, signature) && Lies(s, sig + |signature|, coff)
            && Lies(s, opt, optional) && Lies(s, opt + |optional|, directories)
            && Lies(s, opt + |optional| + |directories| + |slack|, sections)
  {
    LiesSplit(s, 0, dos + stub + signature + coff + optional + directories + slack, sections);
    LiesSplit(s, 0, dos + stub + signature + coff + optional + directories, slack);
    LiesSplit(s, 0, dos + stub + signature + coff + optional, directories);
    LiesSplit(s, 0, dos + stub + signature + coff, optional);
    LiesSplit(s, 0, dos + stub + signature, coff);
    LiesSplit(s, 0, dos + stub, signature);
    LiesSplit(s, 0, dos, stub);
  }

  lemma DosIsRead(h: Headers, s: seq<byte>)
    requires WellFormed(h) && Lies(s, 0, Dos(h))
    ensures |s| >= 64 && U16(s, 0) == MAGIC_MZ && U32(s, LFANEW_AT) == SignatureAt(h)
  {
    LiesSplit(s, 0, Le(2, 0x5A4D) + h.dos, Le(4, 64 + |h.stub|));
    LiesSplit(s, 0, Le(2, 0x5A4D), h.dos);
    Read16(s, 0, 0x5A4D);
    Read32(s, 60, 64 + |h.stub|);
  }

  lemma CoffIsRead(h: Headers, s: seq<byte>, at: nat)
    requires WellFormed(h) && Lies(s, at, Coff(h))
    ensures at + 20 <= |s| && U16(s, at + NUMBER_OF_SECTIONS_AT) == |h.sections|
    ensures U16(s, at + SIZE_OF_OPTIONAL_HEADER_AT) == SizeOfOptionalHeader(h)
  {
    var f := h.coff;
    var front := Le(2, f.machine) + Le(2, |h.sections|);
    var middle := front + Le(4, f.timeDateStamp) + Le(4, f.pointerToSymbolTable) + Le(4, f.numberOfSymbols);
    LiesSplit(s, at, middle + Le(2, SizeOfOptionalHeader(h)), Le(2, f.characteristics));
    LiesSplit(s, at, middle, Le(2, SizeOfOptionalHeader(h)));
    LiesSplit(s, at, front + Le(4, f.timeDateStamp) + Le(4, f.pointerToSymbolTable), Le(4, f.numberOfSymbols));
    LiesSplit(s, at, front + Le(4, f.timeDateStamp), Le(4, f.pointerToSymbolTable));
    LiesSplit(s, at, front, Le(4, f.timeDateStamp));
    LiesSplit(s, at, Le(2, f.machine), Le(2, |h.sections|));
    FewDirectories(h);
    Read16(s, at + 2, |h.sections|);
    Read16(s, at + 16, SizeOfOptionalHeader(h));
  }

  lemma StandardIsRead(h: Headers, s: seq<byte>, at: nat)
    requires WellFormed(h) && Lies(s, at, Standard(h))
    ensures at + 24 <= |s| && U16(s, at) == if h.wide then MAGIC_PE64 else MAGIC_PE32
    ensures U32(s, at + 16) == h.optional.addressOfEntryPoint
  {
    var f, magic := h.optional, if h.wide then 0x20B else 0x10B;
    var linker := Le(2, magic) + Le(1, f.majorLinkerVersion) + Le(1, f.minorLinkerVersion);
    var sizes := linker + Le(4, f.sizeOfCode) + Le(4, f.sizeOfInitializedData) + Le(4, f.sizeOfUninitializedData);
    LiesSplit(s, at, sizes + Le(4, f.addressOfEntryPoint), Le(4, f.baseOfCode));
    LiesSplit(s, at, sizes, Le(4, f.addressOfEntryPoint));
    LiesSplit(s, at, linker + Le(4, f.sizeOfCode) + Le(4, f.sizeOfInitializedData), Le(4, f.sizeOfUninitializedData));
    LiesSplit(s, at, linker + Le(4, f.sizeOfCode), Le(4, f.sizeOfInitializedData));
    LiesSplit(s, at, linker, Le(4, f.sizeOfCode));
    LiesSplit(s, at, Le(2, magic) + Le(1, f.majorLinkerVersion), Le(1, f.minorLinkerVersion));
    LiesSplit(s, at, Le(2, magic), Le(1, f.majorLinkerVersion));
    Read16(s, at, magic);
    Read32(s, at + 16, f.addressOfEntryPoint);
  }

  lemma BasesAreRead(h: Headers, s: seq<byte>, at: nat)
    requires WellFormed(h) && Lies(s, at, Bases(h))
    ensures at + 8 <= |s| && h.optional.imageBase == if h.wide then U64(s, at) else U32(s, at + 4)
  {
    if h.wide {
      Read64(s, at, h.optional.imageBase);
    } else {
      LiesSplit(s, at, Le(4, h.optional.baseOfData), Le(4, h.optional.imageBase));
      Read32(s, at + 4, h.optional.imageBase);
    }
  }

  lemma OptionalSplits(s: seq<byte>, at: nat, standard: seq<byte>, bases: seq<byte>, versions: seq<byte>,
                       reserves: seq<byte>, flags: seq<byte>, count: seq<byte>)
    requires Lies(s, at, standard + bases + versions + reserves + flags + count)
    ensures Lies(s, at, standard) && Lies(s, at + |standard|, bases)
    ensures Lies(s, at + |standard| + |bases| + |versions| + |reserves| + |flags|, count)
  {
    LiesSplit(s, at, standard + bases + versions + reserves + flags, count);
    LiesSplit(s, at, standard + bases + versions + reserves, flags);
    LiesSplit(s, at, standard + bases + versions, reserves);
    LiesSplit(s, at, standard + bases, versions);
    LiesSplit(s, at, standard, bases);
  }

  lemma OptionalIsRead(h: Headers, s: seq<byte>, at: nat)
    requires WellFormed(h) && Lies(s, at, Optional(h))
    ensures at + (if h.wide then 112 else 96) <= |s|
    ensures U16(s, at) == if h.wide then MAGIC_PE64 else MAGIC_PE32
    ensures U32(s, at + 16) == h.optional.addressOfEntryPoint
    ensures h.optional.imageBase == if h.wide then U64(s, at + 24) else U32(s, at + 28)
    ensures |h.directories| == if h.wide then U32(s, at + 108) else U32(s, at + 92)
  {
    OptionalSplits(s, at, Standard(h), Bases(h), Versions(h.optional), Reserves(h.optional, if h.wide then 8 else 4),
                   Le(4, h.optional.loaderFlags), Le(4, |h.directories|));
    StandardIsRead(h, s, at);
    BasesAreRead(h, s, at + 24);
    FewDirectories(h);
    Read32(s, at + if h.wide then 108 else 92, |h.directories|);
  }

  lemma FewDirectories(h: Headers)
    requires WellFormed(h)
    ensures 8 * |h.directories| < 0x1_0000 && SizeOfOptionalHeader(h) == SectionsAt(h) - OptionalAt(h)
  {
    TableLength(h.directories, DirectoryBytes, 8);
  }

  // ----- What the parser finds

  /** The fields of a file with these headers. */
  function Described(h: Headers): PeFile {
    PeFile(
      Some(0), h.signature, Some(SignatureAt(h) + 4),
      Some(OptionalAt(h)), if h.wide then 0x20B else 0x10B, if h.wide then 112 else 96,
      |h.directories|,
      if h.directories == [] then None else Some(DirectoriesAt(h)),
      if h.directories == [] then None
      else Some(seq(|h.directories|, i requires 0 <= i => DirectoriesAt(h) + 8 * i)),
      |h.sections|,
      if h.sections == [] then None else Some(SectionsAt(h)),
      if h.sections == [] then None else Some(seq(|h.sections|, i requires 0 <= i => SectionsAt(h) + 40 * i)),
      h.optional.addressOfEntryPoint, h.optional.imageBase)
  }

  function CodeFor(h: Headers, rest: seq<byte>): int {
    if |h.directories| > 16 then E_TOO_MANY_DIRECTORIES
    else if |h.sections| > 96 then E_TOO_MANY_SECTIONS
    else if h.sections == [] && rest == [] then E_ALLOCATION_FAILURE
    else 0
  }

  /** The fields before the optional header is read. */
  function BeforeOptional(h: Headers): PeFile {
    EMPTY_PE.(dosHdr := Some(0), signature := h.signature, coffHdr := Some(SignatureAt(h) + 4),
              numSections := |h.sections|, optionalHdr := Some(OptionalAt(h)))
  }

  /** The fields before the tables are looked up. */
  function BeforeTables(h: Headers): PeFile {
    BeforeOptional(h).(optionalType := if h.wide then 0x20B else 0x10B, optionalLength := if h.wide then 112 else 96,
                       numDirectories := |h.directories|, entrypoint := h.optional.addressOfEntryPoint,
                       imagebase := h.optional.imageBase)
  }

  lemma StartIsParsed(h: Headers, s: seq<byte>)
    requires WellFormed(h) && Lies(s, 0, Dos(h)) && Lies(s, SignatureAt(h), Le(4, h.signature))
    requires Lies(s, SignatureAt(h) + 4, Coff(h))
    ensures EagerParse(s, EMPTY_PE) ==
            EagerOptional(s, SignatureAt(h), SignatureAt(h) + 4, OptionalAt(h), BeforeOptional(h))
  {
    DosIsRead(h, s);
    Read32(s, SignatureAt(h), h.signature);
    CoffIsRead(h, s, SignatureAt(h) + 4);
  }

  lemma OptionalIsParsed(h: Headers, s: seq<byte>)
    requires WellFormed(h) && Lies(s, OptionalAt(h), Optional(h))
    ensures EagerOptional(s, SignatureAt(h), SignatureAt(h) + 4, OptionalAt(h), BeforeOptional(h)) ==
            EagerTables(s, SignatureAt(h), SignatureAt(h) + 4, OptionalAt(h), BeforeTables(h))
  {
    OptionalIsRead(h, s, OptionalAt(h));
  }

  lemma TablesAreFound(h: Headers, s: seq<byte>)
    requires WellFormed(h) && Lies(s, SignatureAt(h) + 4, Coff(h)) && SectionsAt(h) + 40 * |h.sections| <= |s|
    ensures var r := EagerTables(s, SignatureAt(h), SignatureAt(h) + 4, OptionalAt(h), BeforeTables(h));
            && r.0 == CodeFor(h, s[SectionsAt(h) + 40 * |h.sections|..])
            && (r.0 == 0 ==> r.1 == Described(h))
  {
    FewDirectories(h);
    CoffIsRead(h, s, SignatureAt(h) + 4);
    if |h.directories| <= 16 && |h.sections| <= 96 && There(s, SectionsAt(h), 40 * |h.sections|) {
      ElementsAre(h);
    }
  }

  lemma ElementsAre(h: Headers)
    ensures WithElements(BeforeTables(h).(directoriesPtr := Some(DirectoriesAt(h)), sectionsPtr := Some(SectionsAt(h))),
                         DirectoriesAt(h), SectionsAt(h)) == Described(h)
  {
    assert Elements(DirectoriesAt(h), |h.directories|, DATA_DIRECTORY_SIZE) ==
           seq(|h.directories|, i requires 0 <= i => DirectoriesAt(h) + 8 * i);
    assert Elements(SectionsAt(h), |h.sections|, SECTION_HEADER_SIZE) ==
           seq(|h.sections|, i requires 0 <= i => SectionsAt(h) + 40 * i);
  }

  /** The parser reads back the headers that were written, whatever follows them; and it succeeds exactly when
      the tables are not too long and the file goes on where the section table is empty. */
  lemma ImageIsParsed(h: Headers, rest: seq<byte>)
    requires WellFormed(h)
    ensures EagerParse(Image(h) + rest, EMPTY_PE).0 == CodeFor(h, rest)
    ensures CodeFor(h, rest) == 0 ==> EagerParse(Image(h) + rest, EMPTY_PE) == (0, Described(h))
  {
    var s := Image(h) + rest;
    PartsLie(h, s);
    StartIsParsed(h, s);
    OptionalIsParsed(h, s);
    TablesAreFound(h, s);
    assert s[|Image(h)|..] == rest;
  }

  // ----- What the tables hold

  lemma DirectoryIsRead(s: seq<byte>, at: nat, d: DataDirectory)
    requires Lies(s, at, DirectoryBytes(d)) && Fits32(d.virtualAddress) && Fits32(d.size)
    ensures DirectoryShows(s, at, d)
  {
    LiesSplit(s, at, Le(4, d.virtualAddress), Le(4, d.size));
    Read32(s, at, d.virtualAddress);
    Read32(s, at + 4, d.size);
  }

  ghost predicate DirectoryShows(s: seq<byte>, at: nat, d: DataDirectory) {
    at + 8 <= |s| && U32(s, at) == d.virtualAddress && U32(s, at + 4) == d.size
  }

  lemma SectionSplits(s: seq<byte>, at: nat, x: Section)
    requires Lies(s, at, SectionBytes(x))
    ensures Lies(s, at + 8, Le(4, x.virtualSize)) && Lies(s, at + 12, Le(4, x.virtualAddress))
    ensures Lies(s, at + 16, Le(4, x.sizeOfRawData)) && Lies(s, at + 20, Le(4, x.pointerToRawData))
    ensures at + 40 <= |s|
  {
    var sizes := x.name + Le(4, x.virtualSize) + Le(4, x.virtualAddress) + Le(4, x.sizeOfRawData);
    var front := sizes + Le(4, x.pointerToRawData);
    var links := front + Le(4, x.pointerToRelocations) + Le(4, x.pointerToLinenumbers);
    LiesSplit(s, at, links + Le(2, x.numberOfRelocations) + Le(2, x.numberOfLinenumbers), Le(4, x.characteristics));
    LiesSplit(s, at, links + Le(2, x.numberOfRelocations), Le(2, x.numberOfLinenumbers));
    LiesSplit(s, at, links, Le(2, x.numberOfRelocations));
    LiesSplit(s, at, front + Le(4, x.pointerToRelocations), Le(4, x.pointerToLinenumbers));
    LiesSplit(s, at, front, Le(4, x.pointerToRelocations));
    LiesSplit(s, at, sizes, Le(4, x.pointerToRawData));
    LiesSplit(s, at, x.name + Le(4, x.virtualSize) + Le(4, x.virtualAddress), Le(4, x.sizeOfRawData));
    LiesSplit(s, at, x.name + Le(4, x.virtualSize), Le(4, x.virtualAddress));
    LiesSplit(s, at, x.name, Le(4, x.virtualSize));
  }

  /** How far a section reaches in memory. */
  function Extent(x: Section): nat {
    if x.virtualSize == 0 then x.sizeOfRawData else x.virtualSize
  }

  ghost predicate SectionShows(s: seq<byte>, at: nat, x: Section) {
    && at + SECTION_HEADER_SIZE <= |s| && VirtualSize(s, at) == Extent(x)
    && VirtualAddress(s, at) == x.virtualAddress && PointerToRawData(s, at) == x.pointerToRawData
  }

  lemma SectionIsRead(s: seq<byte>, at: nat, x: Section)
    requires Lies(s, at, SectionBytes(x)) && SectionFits(x)
    ensures SectionShows(s, at, x)
  {
    SectionSplits(s, at, x);
    Read32(s, at + 8, x.virtualSize);
    Read32(s, at + 12, x.virtualAddress);
    Read32(s, at + 16, x.sizeOfRawData);
    Read32(s, at + 20, x.pointerToRawData);
  }

  ghost predicate DirectoriesShow(s: seq<byte>, at: nat, ds: seq<DataDirectory>) {
    var show := forall i :: 0 <= i < |ds| ==> DirectoryShows(s, at + 8 * i, ds[i]);
    show
  }

  ghost predicate SectionsShow(s: seq<byte>, at: nat, xs: seq<Section>) {
    var show := forall i :: 0 <= i < |xs| ==> SectionShows(s, at + 40 * i, xs[i]) && SectionFits(xs[i]);
    show
  }

  ghost predicate EntriesLie(s: seq<byte>, at: nat, blocks: seq<seq<byte>>, n: nat) {
    forall i :: 0 <= i < |blocks| ==> Lies(s, at + n * i, blocks[i])
  }

  function DirectoryBlocks(ds: seq<DataDirectory>): seq<seq<byte>> {
    seq(|ds|, i requires 0 <= i < |ds| => DirectoryBytes(ds[i]))
  }

  function SectionBlocks(xs: seq<Section>): seq<seq<byte>> {
    seq(|xs|, i requires 0 <= i < |xs| => SectionBytes(xs[i]))
  }

  lemma DirectoryEntriesLie(s: seq<byte>, at: nat, ds: seq<DataDirectory>)
    requires Lies(s, at, Table(ds, DirectoryBytes))
    ensures EntriesLie(s, at, DirectoryBlocks(ds), 8)
  {
    forall i | 0 <= i < |ds|
      ensures Lies(s, at + 8 * i, DirectoryBytes(ds[i]))
    {
      TableEntry(s, at, ds, DirectoryBytes, 8, i);
    }
  }

  lemma SectionEntriesLie(s: seq<byte>, at: nat, xs: seq<Section>)
    requires Lies(s, at, Table(xs, SectionBytes))
    ensures EntriesLie(s, at, SectionBlocks(xs), 40)
  {
    forall i | 0 <= i < |xs|
      ensures Lies(s, at + 40 * i, SectionBytes(xs[i]))
    {
      TableEntry(s, at, xs, SectionBytes, 40, i);
    }
  }

  lemma DirectoriesAreRead(s: seq<byte>, at: nat, ds: seq<DataDirectory>)
    requires EntriesLie(s, at, DirectoryBlocks(ds), 8)
    requires forall i :: 0 <= i < |ds| ==> Fits32(ds[i].virtualAddress) && Fits32(ds[i].size)
    ensures DirectoriesShow(s, at, ds)
  {
    forall i | 0 <= i < |ds|
      ensures DirectoryShows(s, at + 8 * i, ds[i])
    {
      assert Lies(s, at + 8 * i, DirectoryBlocks(ds)[i]);
      DirectoryIsRead(s, at + 8 * i, ds[i]);
    }
  }

  lemma SectionsAreRead(s: seq<byte>, at: nat, xs: seq<Section>)
    requires EntriesLie(s, at, SectionBlocks(xs), 40) && forall i :: 0 <= i < |xs| ==> SectionFits(xs[i])
    ensures SectionsShow(s, at, xs)
  {
    forall i | 0 <= i < |xs|
      ensures SectionShows(s, at + 40 * i, xs[i])
    {
      assert Lies(s, at + 40 * i, SectionBlocks(xs)[i]);
      SectionIsRead(s, at + 40 * i, xs[i]);
    }
  }

  lemma EntriesOfImageLie(h: Headers, s: seq<byte>)
    requires Image(h) <= s
    ensures EntriesLie(s, DirectoriesAt(h), DirectoryBlocks(h.directories), 8)
    ensures EntriesLie(s, SectionsAt(h), SectionBlocks(h.sections), 40)
  {
    PartsLie(h, s);
    DirectoryEntriesLie(s, DirectoriesAt(h), h.directories);
    SectionEntriesLie(s, SectionsAt(h), h.sections);
  }

  /** Every entry of both tables is read back as it was written. */
  lemma TablesAreRead(h: Headers, rest: seq<byte>)
    requires WellFormed(h)
    ensures DirectoriesShow(Image(h) + rest, DirectoriesAt(h), h.directories)
    ensures SectionsShow(Image(h) + rest, SectionsAt(h), h.sections)
  {
    EntriesOfImageLie(h, Image(h) + rest);
    DirectoriesAreRead(Image(h) + rest, DirectoriesAt(h), h.directories);
    SectionsAreRead(Image(h) + rest, SectionsAt(h), h.sections);
  }

  predicate InSection(x: Section, rva: nat) {
    x.virtualAddress <= rva < x.virtualAddress + Extent(x)
  }

  lemma SectionTranslates(s: seq<byte>, at: nat, x: Section, rva: nat)
    requires SectionShows(s, at, x) && SectionFits(x)
    ensures Holds(s, at, rva) <==> InSection(x, rva)
    ensures InSection(x, rva) ==> Through(s, at, rva) == x.pointerToRawData + (rva - x.virtualAddress)
  {
  }

  /** The address of a byte of a section leads to that byte in the file: through the first section that holds the
      address, and as far from its raw data as the address is from the section's own. */
  lemma AddressLeadsToByte(s: seq<byte>, secs: seq<nat>, at: nat, xs: seq<Section>, k: nat, rva: nat, ofs: nat)
    requires SectionsShow(s, at, xs) && secs == seq(|xs|, i requires 0 <= i => at + 40 * i) && SectionsThere(s, secs)
    requires k < |xs| && 0 < rva && InSection(xs[k], rva) && forall j :: 0 <= j < k ==> !InSection(xs[j], rva)
    ensures IsOffsetOf(s, Some(secs), rva, ofs) <==> ofs == xs[k].pointerToRawData + (rva - xs[k].virtualAddress)
  {
    forall j | 0 <= j < |xs|
      ensures Holds(s, secs[j], rva) <==> InSection(xs[j], rva)
      ensures InSection(xs[j], rva) ==>
                Through(s, secs[j], rva) == xs[j].pointerToRawData + (rva - xs[j].virtualAddress)
    {
      SectionTranslates(s, secs[j], xs[j], rva);
    }
    assert Holds(s, secs[k], rva);
  }
}
