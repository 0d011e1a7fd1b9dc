/** A resource tree as a value, how it lies in a file, and what the walk makes of it. */
module ResourceImage {
  import opened Wrappers
  import opened SmbReader
  import opened PeFormat
  import opened ByteLayout
  import opened ResourceTree

  /** An entry is known by a number, or by a name that stands at an offset from the root. */
  datatype Key = Id(id: nat) | Named(nameAt: nat)

  datatype Item<T> = Item(key: Key, target: T)

  datatype Info = Info(characteristics: nat, timeDateStamp: nat, majorVersion: nat, minorVersion: nat)

  /** A directory at an offset from the root: its named entries, and then its numbered ones. */
  datatype Dir<T> = Dir(at: nat, info: Info, named: seq<Item<T>>, numbered: seq<Item<T>>)

  /** The languages of a resource: each entry leads to a data entry at an offset from the root. */
  type Languages = Dir<nat>

  type Names = Dir<Languages>

  /** An entry of the root leads to a directory or to data. */
  datatype Lead = Below(names: Names) | Leaf(data: nat)

  type Tree = Dir<Lead>

  function Items<T>(d: Dir<T>): seq<Item<T>> {
    d.named + d.numbered
  }

  // ----- How a tree lies in a file

  function HeaderBytes<T>(d: Dir<T>): seq<byte> {
    Le(4, d.info.characteristics) + Le(4, d.info.timeDateStamp) +
    Le(2, d.info.majorVersion) + Le(2, d.info.minorVersion) + Le(2, |d.named|) + Le(2, |d.numbered|)
  }

  /** The highest bit tells a name from a number, and a directory from data. */
  function KeyWord(key: Key): nat {
    match key
    case Id(id) => id
    case Named(nameAt) => 0x8000_0000 + nameAt
  }

  function DataWord(data: nat): nat {
    data
  }

  function DirWord<T>(d: Dir<T>): nat {
    0x8000_0000 + d.at
  }

  function LeadWord(lead: Lead): nat {
    match lead
    case Below(names) => DirWord(names)
    case Leaf(data) => data
  }

  function EntryBytes(key: Key, word: nat): seq<byte> {
    Le(4, KeyWord(key)) + Le(4, word)
  }

  function EntryAt<T>(base: nat, d: Dir<T>, k: nat): nat {
    base + d.at + 16 + 8 * k
  }

  /** The entry stands in the file, and so do the first four bytes of its name. */
  ghost predicate EntryLies(s: seq<byte>, base: nat, at: nat, key: Key, word: nat) {
    && Lies(s, at, EntryBytes(key, word)) && KeyWord(key) < 0x1_0000_0000 && word < 0x1_0000_0000
    && match key
       case Id(id) => id < 0x8000_0000
       case Named(nameAt) => base + nameAt + 4 <= |s|
  }

  ghost predicate DirLies<T>(s: seq<byte>, base: nat, d: Dir<T>, word: T -> nat) {
    var lies :=
      && Lies(s, base + d.at, HeaderBytes(d)) && |d.named| < 0x1_0000 && |d.numbered| < 0x1_0000
      && forall k :: 0 <= k < |Items(d)| ==>
           EntryLies(s, base, EntryAt(base, d, k), Items(d)[k].key, word(Items(d)[k].target));
    lies
  }

  ghost predicate LanguagesLie(s: seq<byte>, base: nat, d: Languages) {
    && DirLies(s, base, d, DataWord)
    && forall k :: 0 <= k < |Items(d)| ==> Items(d)[k].target < 0x8000_0000 && base + Items(d)[k].target + 16 <= |s|
  }

  ghost predicate NamesLie(s: seq<byte>, base: nat, d: Names) {
    && DirLies(s, base, d, DirWord)
    && forall k :: 0 <= k < |Items(d)| ==> LanguagesLie(s, base, Items(d)[k].target)
  }

  ghost predicate LeadLies(s: seq<byte>, base: nat, lead: Lead) {
    match lead
    case Below(names) => NamesLie(s, base, names)
    case Leaf(data) => data < 0x8000_0000
  }

  /** The tree lies in the file with its root at the base. */
  ghost predicate TreeLies(s: seq<byte>, base: nat, tree: Tree) {
    && tree.at == 0 && DirLies(s, base, tree, LeadWord)
    && forall k :: 0 <= k < |Items(tree)| ==> LeadLies(s, base, Items(tree)[k].target)
  }

  // ----- The visit of a tree

  function EntryVisits(base: nat, level: nat, at: nat, key: Key, root: nat): seq<Visit> {
    [Visit(DirectoryEntry, level, at, Some(root))] +
    match key
    case Id(_) => []
    case Named(nameAt) => [Visit(DataString, level, base + nameAt, Some(root))]
  }

  /** A language with its data entry. */
  function LanguageVisit(base: nat, d: Languages, k: nat, root: nat): seq<Visit>
    requires k < |Items(d)|
  {
    EntryVisits(base, 3, EntryAt(base, d, k), Items(d)[k].key, root) +
    [Visit(DataEntry, 3, base + Items(d)[k].target, Some(root))]
  }

  /** The languages from one on. */
  function LanguageVisits(base: nat, d: Languages, k: nat, root: nat): seq<Visit>
    requires k <= |Items(d)|
    decreases |Items(d)| - k
  {
    if k == |Items(d)| then [] else LanguageVisit(base, d, k, root) + LanguageVisits(base, d, k + 1, root)
  }

  function LanguagesVisits(base: nat, d: Languages, root: nat): seq<Visit> {
    [Visit(ResourceDirectory, 3, base + d.at, Some(root))] + LanguageVisits(base, d, 0, root)
  }

  /** A name with its languages. */
  function NameVisit(base: nat, d: Names, k: nat, root: nat): seq<Visit>
    requires k < |Items(d)|
  {
    EntryVisits(base, 2, EntryAt(base, d, k), Items(d)[k].key, root) + LanguagesVisits(base, Items(d)[k].target, root)
  }

  /** The names from one on. */
  function NameVisits(base: nat, d: Names, k: nat, root: nat): seq<Visit>
    requires k <= |Items(d)|
    decreases |Items(d)| - k
  {
    if k == |Items(d)| then [] else NameVisit(base, d, k, root) + NameVisits(base, d, k + 1, root)
  }

  function LeadVisits(base: nat, lead: Lead, root: nat): seq<Visit> {
    match lead
    case Below(names) => [Visit(ResourceDirectory, 2, base + names.at, Some(root))] + NameVisits(base, names, 0, root)
    case Leaf(_) => []
  }

  /** A type with everything below it, when it comes at this place of the list. */
  function TypeVisits(base: nat, tree: Tree, k: nat, place: nat): seq<Visit>
    requires k < |Items(tree)|
  {
    EntryVisits(base, 1, EntryAt(base, tree, k), Items(tree)[k].key, place) +
    LeadVisits(base, Items(tree)[k].target, place)
  }

  function TypesVisits(base: nat, tree: Tree, k: nat, place: nat): seq<Visit>
    requires k <= |Items(tree)|
    decreases |Items(tree)| - k
  {
    if k == |Items(tree)| then []
    else
      var here := TypeVisits(base, tree, k, place);
      here + TypesVisits(base, tree, k + 1, place + |here|)
  }

  /** Depth first: the root, and for every entry of every directory, named and numbered, in order: the entry, its
      name if it has one, and what it leads to. */
  function TreeVisits(base: nat, tree: Tree): seq<Visit> {
    [Visit(ResourceDirectory, 1, base, None)] + TypesVisits(base, tree, 0, 1)
  }

  // ----- What the code reads of it

  lemma HeaderIsRead<T>(s: seq<byte>, at: nat, d: Dir<T>)
    requires Lies(s, at, HeaderBytes(d)) && |d.named| < 0x1_0000 && |d.numbered| < 0x1_0000
    ensures There(s, at, 16) && Count(s, at) == |Items(d)|
  {
    var versions := Le(4, d.info.characteristics) + Le(4, d.info.timeDateStamp) +
                    Le(2, d.info.majorVersion) + Le(2, d.info.minorVersion);
    LiesSplit(s, at, versions + Le(2, |d.named|), Le(2, |d.numbered|));
    LiesSplit(s, at, versions, Le(2, |d.named|));
    Read16(s, at + 12, |d.named|);
    Read16(s, at + 14, |d.numbered|);
  }

  /** The entry as the code reads it. */
  ghost predicate EntryReads(s: seq<byte>, base: nat, at: nat, key: Key, word: nat) {
    && There(s, at, 8) && U32(s, at + 4) == word < 0x1_0000_0000
    && match key
       case Id(_) => !NameIsString(s, at)
       case Named(nameAt) => NameIsString(s, at) && NameOffset(s, at) == nameAt && There(s, base + nameAt, 4)
  }

  lemma EntryIsRead(s: seq<byte>, base: nat, at: nat, key: Key, word: nat)
    requires EntryLies(s, base, at, key, word)
    ensures EntryReads(s, base, at, key, word)
  {
    LiesSplit(s, at, Le(4, KeyWord(key)), Le(4, word));
    Read32(s, at, KeyWord(key));
    Read32(s, at + 4, word);
  }

  ghost predicate DirReads<T>(s: seq<byte>, base: nat, d: Dir<T>, word: T -> nat) {
    && There(s, base + d.at, 16) && Count(s, base + d.at) == |Items(d)|
    && forall k :: 0 <= k < |Items(d)| ==>
         EntryReads(s, base, EntryAt(base, d, k), Items(d)[k].key, word(Items(d)[k].target))
  }

  lemma DirIsRead<T>(s: seq<byte>, base: nat, d: Dir<T>, word: T -> nat)
    requires DirLies(s, base, d, word)
    ensures DirReads(s, base, d, word)
  {
    HeaderIsRead(s, base + d.at, d);
    forall k | 0 <= k < |Items(d)|
      ensures EntryReads(s, base, EntryAt(base, d, k), Items(d)[k].key, word(Items(d)[k].target))
    {
      EntryIsRead(s, base, EntryAt(base, d, k), Items(d)[k].key, word(Items(d)[k].target));
    }
  }

  ghost predicate LanguagesRead(s: seq<byte>, base: nat, d: Languages) {
    var read :=
      && DirReads(s, base, d, DataWord)
      && forall k :: 0 <= k < |Items(d)| ==> Items(d)[k].target < 0x8000_0000 && base + Items(d)[k].target + 16 <= |s|;
    read
  }

  ghost predicate NamesRead(s: seq<byte>, base: nat, d: Names) {
    var read :=
      && DirReads(s, base, d, DirWord)
      && forall k :: 0 <= k < |Items(d)| ==> LanguagesRead(s, base, Items(d)[k].target);
    read
  }

  ghost predicate LeadReads(s: seq<byte>, base: nat, lead: Lead) {
    match lead
    case Below(names) => NamesRead(s, base, names)
    case Leaf(data) => data < 0x8000_0000
  }

  ghost predicate TreeReads(s: seq<byte>, base: nat, tree: Tree) {
    var read :=
      && tree.at == 0 && DirReads(s, base, tree, LeadWord)
      && forall k :: 0 <= k < |Items(tree)| ==> LeadReads(s, base, Items(tree)[k].target);
    read
  }

  lemma NamesAreRead(s: seq<byte>, base: nat, d: Names)
    requires NamesLie(s, base, d)
    ensures NamesRead(s, base, d)
  {
    DirIsRead(s, base, d, DirWord);
    forall k | 0 <= k < |Items(d)|
      ensures LanguagesRead(s, base, Items(d)[k].target)
    {
      DirIsRead(s, base, Items(d)[k].target, DataWord);
    }
  }

  lemma TreeIsRead(s: seq<byte>, base: nat, tree: Tree)
    requires TreeLies(s, base, tree)
    ensures TreeReads(s, base, tree)
  {
    DirIsRead(s, base, tree, LeadWord);
    forall k | 0 <= k < |Items(tree)|
      ensures LeadReads(s, base, Items(tree)[k].target)
    {
      assert LeadLies(s, base, Items(tree)[k].target);
      if Items(tree)[k].target.Below? {
        NamesAreRead(s, base, Items(tree)[k].target.names);
      }
    }
  }

  lemma EntryIsVisited(s: seq<byte>, base: nat, level: nat, at: nat, key: Key, word: nat, root: nat, acc: seq<Visit>)
    requires EntryReads(s, base, at, key, word)
    ensures EntryAndName(s, base, level, root, at, acc) == Some(acc + EntryVisits(base, level, at, key, root))
  {
    var entry := Visit(DirectoryEntry, level, at, Some(root));
    if key.Named? {
      assert acc + ([entry] + [Visit(DataString, level, base + key.nameAt, Some(root))]) ==
             acc + [entry] + [Visit(DataString, level, base + key.nameAt, Some(root))];
    } else {
      assert [entry] + [] == [entry];
    }
  }

  // ----- What a walk has visited it keeps

  /** The walk stops, or goes on from here. */
  ghost predicate Extends(r: Option<seq<Visit>>, acc: seq<Visit>) {
    r.Some? ==> acc <= r.value
  }

  lemma Entry3Extends(s: seq<byte>, base: nat, root: nat, y: nat, entry: nat, acc: seq<Visit>)
    ensures var r := Entry3(s, base, root, y, entry, acc);
            r.Some? ==> acc + [Visit(DirectoryEntry, 3, entry, Some(root))] <= r.value.1
  {
  }

  lemma {:induction false} Level3Extends(s: seq<byte>, base: nat, root: nat, count: nat, y: nat, offset: nat,
                                         acc: seq<Visit>)
    ensures Extends(Level3(s, base, root, count, y, offset, acc), acc)
    decreases count + 1 - y
  {
    if y <= count {
      Entry3Extends(s, base, root, y, offset, acc);
      match Entry3(s, base, root, y, offset, acc)
      case None =>
      case Some((next, acc')) => Level3Extends(s, base, root, count, y + 1, next, acc');
    }
  }

  lemma Entry2Extends(s: seq<byte>, base: nat, root: nat, entry: nat, acc: seq<Visit>)
    ensures Extends(Entry2(s, base, root, entry, acc), acc)
  {
    match EntryAndName(s, base, 2, root, entry, acc)
    case None =>
    case Some(acc') =>
      var dir := base + OffsetToDirectory(s, entry);
      if There(s, dir, 16) {
        Level3Extends(s, base, root, Count(s, dir), 1, dir + 16, acc' + [Visit(ResourceDirectory, 3, dir, Some(root))]);
      }
  }

  lemma {:induction false} Level2Extends(s: seq<byte>, base: nat, root: nat, dir: nat, j: nat, acc: seq<Visit>)
    requires dir + 16 <= |s| && j > 0
    ensures Extends(Level2(s, base, root, dir, j, acc), acc)
    decreases Count(s, dir) + 1 - j
  {
    if j <= Count(s, dir) {
      Entry2Extends(s, base, root, dir + 8 + 8 * j, acc);
      match Entry2(s, base, root, dir + 8 + 8 * j, acc)
      case None =>
      case Some(acc') => Level2Extends(s, base, root, dir, j + 1, acc');
    }
  }

  lemma Entry1Extends(s: seq<byte>, base: nat, entry: nat, acc: seq<Visit>)
    ensures Extends(Entry1(s, base, entry, acc), acc)
  {
    var root := |acc|;
    match EntryAndName(s, base, 1, root, entry, acc)
    case None =>
    case Some(acc') =>
      var dir := base + OffsetToDirectory(s, entry);
      if DataIsDirectory(s, entry) && There(s, dir, 16) {
        Level2Extends(s, base, root, dir, 1, acc' + [Visit(ResourceDirectory, 2, dir, Some(root))]);
      }
  }

  lemma {:induction false} Level1Extends(s: seq<byte>, base: nat, i: nat, acc: seq<Visit>)
    requires base + 16 <= |s| && i > 0
    ensures Extends(Level1(s, base, i, acc), acc)
    decreases Count(s, base) + 1 - i
  {
    if i <= Count(s, base) {
      Entry1Extends(s, base, base + 8 + 8 * i, acc);
      match Entry1(s, base, base + 8 + 8 * i, acc)
      case None =>
      case Some(acc') => Level1Extends(s, base, i + 1, acc');
    }
  }

  // ----- The walk over a tree

  /** The two lists differ at a place that both have. */
  ghost predicate Diverges(a: seq<Visit>, b: seq<Visit>) {
    exists p :: 0 <= p < |a| && p < |b| && a[p] != b[p]
  }

  /** The walk makes exactly these visits when all is right; otherwise it stops, or makes a wrong one. */
  ghost predicate Tells(r: Option<seq<Visit>>, want: seq<Visit>, right: bool) {
    var tells := if right then r == Some(want) else r.Some? ==> Diverges(r.value, want);
    tells
  }

  lemma DivergesOn(a: seq<Visit>, b: seq<Visit>, a': seq<Visit>, b': seq<Visit>)
    requires Diverges(a, b) && a <= a' && b <= b'
    ensures Diverges(a', b')
  {
    var p :| 0 <= p < |a| && p < |b| && a[p] != b[p];
    assert a'[p] != b'[p];
  }

  lemma OneAfterTheOther(a: seq<Visit>, b: seq<Visit>, c: seq<Visit>)
    ensures a + b + c == a + (b + c)
  {
  }

  lemma WrongVisit(acc: seq<Visit>, v: Visit, w: Visit, r: seq<Visit>, rest: seq<Visit>)
    requires v != w && acc + [v] <= r
    ensures Diverges(r, acc + ([w] + rest))
  {
    assert r[|acc|] == v && (acc + ([w] + rest))[|acc|] == w;
  }

  /** The language is looked up where it is: the first always; another one only if it stands just behind the
      data entry before it, and is, or is named by, its own data entry. */
  ghost predicate FoundAt(base: nat, d: Languages, k: nat)
    requires k < |Items(d)|
  {
    k > 0 ==>
      && EntryAt(base, d, k) == base + Items(d)[k - 1].target + 16
      && base + Items(d)[k].target ==
         match Items(d)[k].key
         case Id(_) => EntryAt(base, d, k)
         case Named(nameAt) => base + nameAt
  }

  ghost predicate AllFound(base: nat, d: Languages) {
    FoundFrom(base, d, 0)
  }

  ghost predicate FoundFrom(base: nat, d: Languages, k: nat) {
    forall i :: k <= i < |Items(d)| ==> FoundAt(base, d, i)
  }

  /** Where the code looks the language up. */
  function LookedUpAt(base: nat, d: Languages, k: nat): nat
    requires k <= |Items(d)|
  {
    if k == 0 then EntryAt(base, d, 0) else base + Items(d)[k - 1].target + 16
  }

  /** What one language comes to: the right visits when it is found; otherwise the walk stops, or a wrong visit
      is made. */
  ghost predicate LanguageTells(base: nat, d: Languages, k: nat, root: nat, acc: seq<Visit>,
                                r: Option<(nat, seq<Visit>)>)
    requires k < |Items(d)|
  {
    var want := acc + LanguageVisit(base, d, k, root);
    if FoundAt(base, d, k) then r == Some((base + Items(d)[k].target + 16, want))
    else r.Some? ==> Diverges(r.value.1, want)
  }

  lemma LanguageIsVisited(s: seq<byte>, base: nat, d: Languages, k: nat, root: nat, acc: seq<Visit>)
    requires LanguagesRead(s, base, d) && k < |Items(d)|
    ensures LanguageTells(base, d, k, root, acc, Entry3(s, base, root, k + 1, LookedUpAt(base, d, k), acc))
  {
    var at, item := EntryAt(base, d, k), Items(d)[k];
    assert EntryReads(s, base, at, item.key, item.target) && base + item.target + 16 <= |s|;
    if LookedUpAt(base, d, k) == at {
      LanguageAt(s, base, root, k + 1, at, item, acc);
    } else {
      var r := Entry3(s, base, root, k + 1, LookedUpAt(base, d, k), acc);
      Entry3Extends(s, base, root, k + 1, LookedUpAt(base, d, k), acc);
      if r.Some? {
        WrongVisit(acc, Visit(DirectoryEntry, 3, LookedUpAt(base, d, k), Some(root)),
                   Visit(DirectoryEntry, 3, at, Some(root)), r.value.1, LanguageVisit(base, d, k, root)[1..]);
      }
    }
  }

  /** Where the data of a language is looked for, when the language is looked up at its place. */
  function DataFoundAt(base: nat, y: nat, at: nat, item: Item<nat>): nat {
    if y == 1 then base + item.target else if item.key.Id? then at else base + item.key.nameAt
  }

  lemma Entry3At(s: seq<byte>, base: nat, root: nat, y: nat, at: nat, item: Item<nat>, acc: seq<Visit>)
    requires EntryReads(s, base, at, item.key, item.target) && item.target < 0x8000_0000
    ensures var found := DataFoundAt(base, y, at, item);
            Entry3(s, base, root, y, at, acc) ==
            if !There(s, found, 16) then None
            else Some((found + 16, acc + EntryVisits(base, 3, at, item.key, root) +
                                   [Visit(DataEntry, 3, found, Some(root))]))
  {
    EntryIsVisited(s, base, 3, at, item.key, item.target, root, acc);
  }

  /** A language that is looked up at the right place is right exactly if its data is. */
  lemma LanguageAt(s: seq<byte>, base: nat, root: nat, y: nat, at: nat, item: Item<nat>, acc: seq<Visit>)
    requires EntryReads(s, base, at, item.key, item.target) && base + item.target + 16 <= |s|
    requires item.target < 0x8000_0000
    ensures var r, found := Entry3(s, base, root, y, at, acc), DataFoundAt(base, y, at, item);
            var want := acc + (EntryVisits(base, 3, at, item.key, root) +
                               [Visit(DataEntry, 3, base + item.target, Some(root))]);
            if found == base + item.target then r == Some((found + 16, want))
            else r.Some? ==> Diverges(r.value.1, want)
  {
    Entry3At(s, base, root, y, at, item, acc);
    LastVisit(acc, EntryVisits(base, 3, at, item.key, root),
              Visit(DataEntry, 3, DataFoundAt(base, y, at, item), Some(root)),
              Visit(DataEntry, 3, base + item.target, Some(root)));
  }

  lemma LastVisit(acc: seq<Visit>, visits: seq<Visit>, v: Visit, w: Visit)
    ensures acc + visits + [w] == acc + (visits + [w])
    ensures v != w ==> Diverges(acc + visits + [v], acc + (visits + [w]))
  {
    if v != w {
      WrongVisit(acc + visits, v, w, acc + visits + [v], []);
      assert [w] + [] == [w];
    }
  }

  lemma {:induction false} LanguagesAreVisited(s: seq<byte>, base: nat, d: Languages, k: nat, root: nat,
                                               acc: seq<Visit>)
    requires LanguagesRead(s, base, d) && k <= |Items(d)|
    ensures Tells(Level3(s, base, root, |Items(d)|, k + 1, LookedUpAt(base, d, k), acc),
                  acc + LanguageVisits(base, d, k, root), FoundFrom(base, d, k))
    decreases |Items(d)| - k
  {
    if k == |Items(d)| {
      assert acc + [] == acc;
    } else {
      LanguageIsVisited(s, base, d, k, root, acc);
      if FoundAt(base, d, k) {
        LanguagesAreVisited(s, base, d, k + 1, root, acc + LanguageVisit(base, d, k, root));
        FoundStep(s, base, d, k, root, acc);
      } else {
        LostStep(s, base, d, k, root, acc);
      }
    }
  }

  lemma FoundStep(s: seq<byte>, base: nat, d: Languages, k: nat, root: nat, acc: seq<Visit>)
    requires k < |Items(d)| && FoundAt(base, d, k)
    requires LanguageTells(base, d, k, root, acc, Entry3(s, base, root, k + 1, LookedUpAt(base, d, k), acc))
    requires Tells(Level3(s, base, root, |Items(d)|, k + 2, LookedUpAt(base, d, k + 1),
                          acc + LanguageVisit(base, d, k, root)),
                   acc + LanguageVisit(base, d, k, root) + LanguageVisits(base, d, k + 1, root),
                   FoundFrom(base, d, k + 1))
    ensures Tells(Level3(s, base, root, |Items(d)|, k + 1, LookedUpAt(base, d, k), acc),
                  acc + LanguageVisits(base, d, k, root), FoundFrom(base, d, k))
  {
    var here, rest := LanguageVisit(base, d, k, root), LanguageVisits(base, d, k + 1, root);
    assert acc + here + rest == acc + (here + rest);
    assert FoundFrom(base, d, k) <==> FoundFrom(base, d, k + 1);
  }

  lemma LostStep(s: seq<byte>, base: nat, d: Languages, k: nat, root: nat, acc: seq<Visit>)
    requires k < |Items(d)| && !FoundAt(base, d, k)
    requires LanguageTells(base, d, k, root, acc, Entry3(s, base, root, k + 1, LookedUpAt(base, d, k), acc))
    ensures Tells(Level3(s, base, root, |Items(d)|, k + 1, LookedUpAt(base, d, k), acc),
                  acc + LanguageVisits(base, d, k, root), FoundFrom(base, d, k))
  {
    var here, rest := LanguageVisit(base, d, k, root), LanguageVisits(base, d, k + 1, root);
    assert acc + here + rest == acc + (here + rest);
    assert !FoundFrom(base, d, k);
    var entry := Entry3(s, base, root, k + 1, LookedUpAt(base, d, k), acc);
    if entry.Some? {
      Level3Extends(s, base, root, |Items(d)|, k + 2, entry.value.0, entry.value.1);
      WrongStays(entry.value.1, acc + here, Level3(s, base, root, |Items(d)|, k + 2, entry.value.0, entry.value.1),
                 acc + here + rest);
    }
  }

  /** A walk that makes a first step and then others. */
  lemma StepTells(first: Option<seq<Visit>>, r: Option<seq<Visit>>, others: Option<seq<Visit>>, acc: seq<Visit>,
                  here: seq<Visit>, rest: seq<Visit>, right: bool, othersRight: bool)
    requires Tells(first, acc + here, right) && (right ==> r == others && Tells(others, acc + here + rest, othersRight))
    requires match first case None => r == None case Some(acc') => Extends(r, acc')
    ensures Tells(r, acc + (here + rest), right && othersRight)
  {
    OneAfterTheOther(acc, here, rest);
    if !right && first.Some? {
      WrongStays(first.value, acc + here, r, acc + here + rest);
    }
  }

  lemma WrongStays(acc: seq<Visit>, want: seq<Visit>, r: Option<seq<Visit>>, all: seq<Visit>)
    requires Diverges(acc, want) && Extends(r, acc) && want <= all
    ensures Tells(r, all, false)
  {
    if r.Some? {
      DivergesOn(acc, want, r.value, all);
    }
  }

  lemma LanguagesTell(s: seq<byte>, base: nat, d: Languages, root: nat, acc: seq<Visit>)
    requires LanguagesRead(s, base, d)
    ensures Tells(Directory3(s, base, root, base + d.at, acc), acc + LanguagesVisits(base, d, root), AllFound(base, d))
  {
    var dir := Visit(ResourceDirectory, 3, base + d.at, Some(root));
    LanguagesAreVisited(s, base, d, 0, root, acc + [dir]);
    assert acc + [dir] + LanguageVisits(base, d, 0, root) == acc + LanguagesVisits(base, d, root);
  }

  // ----- The levels above

  ghost predicate NamesFound(base: nat, d: Names, k: nat) {
    forall i :: k <= i < |Items(d)| ==> AllFound(base, Items(d)[i].target)
  }

  lemma NameIsVisited(s: seq<byte>, base: nat, d: Names, k: nat, root: nat, acc: seq<Visit>)
    requires NamesRead(s, base, d) && k < |Items(d)|
    ensures Tells(Entry2(s, base, root, EntryAt(base, d, k), acc), acc + NameVisit(base, d, k, root),
                  AllFound(base, Items(d)[k].target))
  {
    var at, key, below := EntryAt(base, d, k), Items(d)[k].key, Items(d)[k].target;
    var visits := EntryVisits(base, 2, at, key, root);
    assert EntryReads(s, base, at, key, DirWord(below));
    EntryIsVisited(s, base, 2, at, key, DirWord(below), root, acc);
    NameLeads(s, base, at, visits, below.at, root, acc);
    LanguagesTell(s, base, below, root, acc + visits);
    assert acc + visits + LanguagesVisits(base, below, root) == acc + NameVisit(base, d, k, root);
  }

  lemma NameLeads(s: seq<byte>, base: nat, at: nat, visits: seq<Visit>, below: nat, root: nat, acc: seq<Visit>)
    requires at + 8 <= |s| && U32(s, at + 4) == 0x8000_0000 + below < 0x1_0000_0000
    requires EntryAndName(s, base, 2, root, at, acc) == Some(acc + visits)
    ensures Entry2(s, base, root, at, acc) == Directory3(s, base, root, base + below, acc + visits)
  {
  }

  lemma {:induction false} NamesAreVisited(s: seq<byte>, base: nat, d: Names, k: nat, root: nat, acc: seq<Visit>)
    requires NamesRead(s, base, d) && k <= |Items(d)| && base + d.at + 16 <= |s|
    requires Count(s, base + d.at) == |Items(d)|
    ensures Tells(Level2(s, base, root, base + d.at, k + 1, acc), acc + NameVisits(base, d, k, root),
                  NamesFound(base, d, k))
    decreases |Items(d)| - k
  {
    if k == |Items(d)| {
      assert acc + [] == acc;
    } else {
      NameIsVisited(s, base, d, k, root, acc);
      if AllFound(base, Items(d)[k].target) {
        NamesAreVisited(s, base, d, k + 1, root, acc + NameVisit(base, d, k, root));
      }
      NameStep(s, base, d, k, root, acc);
    }
  }

  lemma NameStep(s: seq<byte>, base: nat, d: Names, k: nat, root: nat, acc: seq<Visit>)
    requires k < |Items(d)| && base + d.at + 16 <= |s| && Count(s, base + d.at) == |Items(d)|
    requires Tells(Entry2(s, base, root, EntryAt(base, d, k), acc), acc + NameVisit(base, d, k, root),
                   AllFound(base, Items(d)[k].target))
    requires AllFound(base, Items(d)[k].target) ==>
               Tells(Level2(s, base, root, base + d.at, k + 2, acc + NameVisit(base, d, k, root)),
                     acc + NameVisit(base, d, k, root) + NameVisits(base, d, k + 1, root), NamesFound(base, d, k + 1))
    ensures Tells(Level2(s, base, root, base + d.at, k + 1, acc), acc + NameVisits(base, d, k, root),
                  NamesFound(base, d, k))
  {
    var here, rest := NameVisit(base, d, k, root), NameVisits(base, d, k + 1, root);
    assert EntryAt(base, d, k) == base + d.at + 8 + 8 * (k + 1);
    assert NamesFound(base, d, k) <==> AllFound(base, Items(d)[k].target) && NamesFound(base, d, k + 1);
    var entry, r := Level2Step(s, base, root, base + d.at, k + 1, acc);
    StepTells(entry, r, Level2(s, base, root, base + d.at, k + 2, acc + here), acc, here, rest,
              AllFound(base, Items(d)[k].target), NamesFound(base, d, k + 1));
  }

  lemma Level2Step(s: seq<byte>, base: nat, root: nat, dir: nat, j: nat, acc: seq<Visit>)
    returns (entry: Option<seq<Visit>>, r: Option<seq<Visit>>)
    requires dir + 16 <= |s| && 0 < j <= Count(s, dir)
    ensures entry == Entry2(s, base, root, dir + 8 + 8 * j, acc) && r == Level2(s, base, root, dir, j, acc)
    ensures match entry
            case None => r == None
            case Some(acc') => r == Level2(s, base, root, dir, j + 1, acc') && Extends(r, acc')
  {
    entry, r := Entry2(s, base, root, dir + 8 + 8 * j, acc), Level2(s, base, root, dir, j, acc);
    if entry.Some? {
      Level2Extends(s, base, root, dir, j + 1, entry.value);
    }
  }

  ghost predicate LeadFound(base: nat, lead: Lead) {
    lead.Below? ==> NamesFound(base, lead.names, 0)
  }

  lemma NamesTell(s: seq<byte>, base: nat, d: Names, root: nat, acc: seq<Visit>)
    requires NamesRead(s, base, d)
    ensures Tells(Directory2(s, base, root, base + d.at, acc), acc + LeadVisits(base, Below(d), root),
                  NamesFound(base, d, 0))
  {
    var r := DirectoryOfNames(s, base, d, root, acc);
    VisitsOfNames(base, d, root, acc);
  }

  lemma TellsSame(r: Option<seq<Visit>>, r': Option<seq<Visit>>, want: seq<Visit>, want': seq<Visit>, right: bool)
    requires Tells(r, want, right) && r == r' && want == want'
    ensures Tells(r', want', right)
  {
  }

  lemma DirectoryOfNames(s: seq<byte>, base: nat, d: Names, root: nat, acc: seq<Visit>)
    returns (r: Option<seq<Visit>>)
    requires NamesRead(s, base, d)
    ensures r == Directory2(s, base, root, base + d.at, acc)
    ensures Tells(r, acc + [Visit(ResourceDirectory, 2, base + d.at, Some(root))] + NameVisits(base, d, 0, root),
                  NamesFound(base, d, 0))
  {
    NamesAreVisited(s, base, d, 0, root, acc + [Visit(ResourceDirectory, 2, base + d.at, Some(root))]);
    r := Directory2(s, base, root, base + d.at, acc);
  }

  lemma VisitsOfNames(base: nat, d: Names, root: nat, acc: seq<Visit>)
    ensures acc + [Visit(ResourceDirectory, 2, base + d.at, Some(root))] + NameVisits(base, d, 0, root) ==
            acc + LeadVisits(base, Below(d), root)
  {
    var dir := Visit(ResourceDirectory, 2, base + d.at, Some(root));
    assert acc + [dir] + NameVisits(base, d, 0, root) == acc + ([dir] + NameVisits(base, d, 0, root));
  }

  lemma TypeLeads(s: seq<byte>, base: nat, at: nat, visits: seq<Visit>, lead: Lead, acc: seq<Visit>)
    requires at + 8 <= |s| && U32(s, at + 4) == LeadWord(lead) < 0x1_0000_0000
    requires lead.Leaf? ==> lead.data < 0x8000_0000
    requires EntryAndName(s, base, 1, |acc|, at, acc) == Some(acc + visits)
    ensures Entry1(s, base, at, acc) == LeadFrom(s, base, lead, |acc|, acc + visits)
  {
  }

  function LeadFrom(s: seq<byte>, base: nat, lead: Lead, root: nat, acc: seq<Visit>): Option<seq<Visit>> {
    match lead
    case Below(names) => Directory2(s, base, root, base + names.at, acc)
    case Leaf(_) => Some(acc)
  }

  lemma TypeIsVisited(s: seq<byte>, base: nat, tree: Tree, k: nat, acc: seq<Visit>)
    requires TreeReads(s, base, tree) && k < |Items(tree)|
    ensures Tells(Entry1(s, base, EntryAt(base, tree, k), acc), acc + TypeVisits(base, tree, k, |acc|),
                  LeadFound(base, Items(tree)[k].target))
  {
    assert EntryReads(s, base, EntryAt(base, tree, k), Items(tree)[k].key, LeadWord(Items(tree)[k].target));
    assert LeadReads(s, base, Items(tree)[k].target);
    TypeTells(s, base, EntryAt(base, tree, k), Items(tree)[k].key, Items(tree)[k].target, acc);
  }

  lemma TypeEnters(s: seq<byte>, base: nat, at: nat, key: Key, lead: Lead, acc: seq<Visit>)
    requires EntryReads(s, base, at, key, LeadWord(lead)) && (lead.Leaf? ==> lead.data < 0x8000_0000)
    ensures Entry1(s, base, at, acc) == LeadFrom(s, base, lead, |acc|, acc + EntryVisits(base, 1, at, key, |acc|))
  {
    EntryIsVisited(s, base, 1, at, key, LeadWord(lead), |acc|, acc);
    TypeLeads(s, base, at, EntryVisits(base, 1, at, key, |acc|), lead, acc);
  }

  lemma TypeTells(s: seq<byte>, base: nat, at: nat, key: Key, lead: Lead, acc: seq<Visit>)
    requires EntryReads(s, base, at, key, LeadWord(lead)) && LeadReads(s, base, lead)
    ensures Tells(Entry1(s, base, at, acc),
                  acc + (EntryVisits(base, 1, at, key, |acc|) + LeadVisits(base, lead, |acc|)), LeadFound(base, lead))
  {
    var visits, more := EntryVisits(base, 1, at, key, |acc|), LeadVisits(base, lead, |acc|);
    TypeEnters(s, base, at, key, lead, acc);
    LeadTells(s, base, lead, |acc|, acc + visits);
    OneAfterTheOther(acc, visits, more);
    TellsSame(LeadFrom(s, base, lead, |acc|, acc + visits), Entry1(s, base, at, acc), acc + visits + more,
              acc + (visits + more), LeadFound(base, lead));
  }

  lemma LeadTells(s: seq<byte>, base: nat, lead: Lead, root: nat, acc: seq<Visit>)
    requires LeadReads(s, base, lead)
    ensures Tells(LeadFrom(s, base, lead, root, acc), acc + LeadVisits(base, lead, root), LeadFound(base, lead))
  {
    match lead
    case Below(names) => NamesTell(s, base, names, root, acc);
    case Leaf(_) => assert acc + [] == acc;
  }

  ghost predicate TreeFound(base: nat, tree: Tree, k: nat) {
    forall i :: k <= i < |Items(tree)| ==> LeadFound(base, Items(tree)[i].target)
  }

  lemma {:induction false} TypesAreVisited(s: seq<byte>, base: nat, tree: Tree, k: nat, acc: seq<Visit>)
    requires TreeReads(s, base, tree) && k <= |Items(tree)| && base + 16 <= |s| && Count(s, base) == |Items(tree)|
    ensures Tells(Level1(s, base, k + 1, acc), acc + TypesVisits(base, tree, k, |acc|), TreeFound(base, tree, k))
    decreases |Items(tree)| - k
  {
    if k == |Items(tree)| {
      assert acc + [] == acc;
    } else {
      TypeIsVisited(s, base, tree, k, acc);
      if LeadFound(base, Items(tree)[k].target) {
        TypesAreVisited(s, base, tree, k + 1, acc + TypeVisits(base, tree, k, |acc|));
      }
      TypeStep(s, base, tree, k, acc);
    }
  }

  lemma TypeParts(base: nat, tree: Tree, k: nat, acc: seq<Visit>) returns (here: seq<Visit>, rest: seq<Visit>)
    requires k < |Items(tree)|
    ensures here == TypeVisits(base, tree, k, |acc|) && rest == TypesVisits(base, tree, k + 1, |acc + here|)
    ensures TypesVisits(base, tree, k, |acc|) == here + rest
  {
    here := TypeVisits(base, tree, k, |acc|);
    rest := TypesVisits(base, tree, k + 1, |acc + here|);
  }

  lemma TypeStep(s: seq<byte>, base: nat, tree: Tree, k: nat, acc: seq<Visit>)
    requires k < |Items(tree)| && tree.at == 0 && base + 16 <= |s| && Count(s, base) == |Items(tree)|
    requires Tells(Entry1(s, base, EntryAt(base, tree, k), acc), acc + TypeVisits(base, tree, k, |acc|),
                   LeadFound(base, Items(tree)[k].target))
    requires LeadFound(base, Items(tree)[k].target) ==>
               var acc' := acc + TypeVisits(base, tree, k, |acc|);
               Tells(Level1(s, base, k + 2, acc'), acc' + TypesVisits(base, tree, k + 1, |acc'|),
                     TreeFound(base, tree, k + 1))
    ensures Tells(Level1(s, base, k + 1, acc), acc + TypesVisits(base, tree, k, |acc|), TreeFound(base, tree, k))
  {
    var here, rest := TypeParts(base, tree, k, acc);
    assert EntryAt(base, tree, k) == base + 8 + 8 * (k + 1);
    var found, others := TreeFoundStep(base, tree, k);
    var entry, r := Level1Step(s, base, k + 1, acc);
    StepTells(entry, r, Level1(s, base, k + 2, acc + here), acc, here, rest, found, others);
  }

  lemma TreeFoundStep(base: nat, tree: Tree, k: nat) returns (found: bool, others: bool)
    requires k < |Items(tree)|
    ensures found == LeadFound(base, Items(tree)[k].target) && others == TreeFound(base, tree, k + 1)
    ensures TreeFound(base, tree, k) == (found && others)
  {
    found, others := LeadFound(base, Items(tree)[k].target), TreeFound(base, tree, k + 1);
  }

  lemma Level1Step(s: seq<byte>, base: nat, i: nat, acc: seq<Visit>)
    returns (entry: Option<seq<Visit>>, r: Option<seq<Visit>>)
    requires base + 16 <= |s| && 0 < i <= Count(s, base)
    ensures entry == Entry1(s, base, base + 8 + 8 * i, acc) && r == Level1(s, base, i, acc)
    ensures match entry
            case None => r == None
            case Some(acc') => r == Level1(s, base, i + 1, acc') && Extends(r, acc')
  {
    entry, r := Entry1(s, base, base + 8 + 8 * i, acc), Level1(s, base, i, acc);
    if entry.Some? {
      Level1Extends(s, base, i + 1, entry.value);
    }
  }

  lemma TellsIff(r: Option<seq<Visit>>, want: seq<Visit>, right: bool)
    requires Tells(r, want, right)
    ensures r == Some(want) <==> right
  {
  }

  lemma TreeTells(s: seq<byte>, base: nat, tree: Tree)
    requires TreeReads(s, base, tree)
    ensures Tells(Walk(s, base), TreeVisits(base, tree), TreeFound(base, tree, 0))
  {
    var root := Visit(ResourceDirectory, 1, base, None);
    TypesAreVisited(s, base, tree, 0, [root]);
    assert [root] + TypesVisits(base, tree, 0, 1) == TreeVisits(base, tree);
  }

  /** The walk over a file that holds a tree visits exactly the tree, every entry of every directory in order, if
      and only if every language is found; otherwise it stops, or visits something that is not there. */
  lemma WalkVisitsTreeIff(s: seq<byte>, base: nat, tree: Tree)
    requires TreeLies(s, base, tree)
    ensures Walk(s, base) == Some(TreeVisits(base, tree)) <==> TreeFound(base, tree, 0)
  {
    TreeIsRead(s, base, tree);
    TreeTells(s, base, tree);
    TellsIff(Walk(s, base), TreeVisits(base, tree), TreeFound(base, tree, 0));
  }

  // ----- The condition in terms of the tree

  /** No data entry reaches into the directory that leads to it. */
  ghost predicate Apart(d: Languages) {
    forall k :: 0 <= k < |Items(d)| ==>
      Items(d)[k].target + 16 <= d.at || d.at + 16 + 8 * |Items(d)| <= Items(d)[k].target
  }

  /** A resource in one language, at most, is found; and unless a data entry overlaps its directory, no other. */
  lemma FoundIffOneLanguage(base: nat, d: Languages)
    requires Apart(d)
    ensures AllFound(base, d) <==> |Items(d)| <= 1
  {
    if |Items(d)| > 1 {
      assert !FoundAt(base, d, 1);
    }
  }

  ghost predicate OneLanguage(d: Names) {
    forall j :: 0 <= j < |Items(d)| ==> |Items(Items(d)[j].target)| <= 1
  }

  /** Every resource of the tree has one language at most. */
  ghost predicate OneLanguageEach(tree: Tree) {
    forall i :: 0 <= i < |Items(tree)| && Items(tree)[i].target.Below? ==> OneLanguage(Items(tree)[i].target.names)
  }

  ghost predicate NamesApart(d: Names) {
    forall j :: 0 <= j < |Items(d)| ==> Apart(Items(d)[j].target)
  }

  ghost predicate AllApart(tree: Tree) {
    forall i :: 0 <= i < |Items(tree)| && Items(tree)[i].target.Below? ==> NamesApart(Items(tree)[i].target.names)
  }

  lemma NamesFoundIff(base: nat, d: Names)
    requires NamesApart(d)
    ensures NamesFound(base, d, 0) <==> OneLanguage(d)
  {
    forall j | 0 <= j < |Items(d)|
      ensures AllFound(base, Items(d)[j].target) <==> |Items(Items(d)[j].target)| <= 1
    {
      FoundIffOneLanguage(base, Items(d)[j].target);
    }
  }

  /** In a file in which no data entry overlaps its directory the walk visits exactly the tree if and only if every
      resource has one language at most. */
  lemma WalkIsRightIffOneLanguageEach(s: seq<byte>, base: nat, tree: Tree)
    requires TreeLies(s, base, tree) && AllApart(tree)
    ensures Walk(s, base) == Some(TreeVisits(base, tree)) <==> OneLanguageEach(tree)
  {
    WalkVisitsTreeIff(s, base, tree);
    forall i | 0 <= i < |Items(tree)| && Items(tree)[i].target.Below?
      ensures LeadFound(base, Items(tree)[i].target) <==> OneLanguage(Items(tree)[i].target.names)
    {
      NamesFoundIff(base, Items(tree)[i].target.names);
    }
  }

  // ----- A resource in two languages

  /** A tree with one resource, in two languages: its directories one after the other. */
  predicate TwoLanguages(tree: Tree, names: Names, d: Languages) {
    && tree == Dir(0, tree.info, [], [Item(Id(16), Below(names))])
    && names == Dir(24, names.info, [], [Item(Id(1), d)])
    && d == Dir(48, d.info, [], [Item(Id(1031), 80), Item(Id(1033), 96)])
  }

  /** Its file: each directory with its entries, and then the data entries. */
  function FileOf(tree: Tree, names: Names, d: Languages, data: seq<byte>): seq<byte> {
    HeaderBytes(tree) + EntryBytes(Id(16), DirWord(names)) + HeaderBytes(names) + EntryBytes(Id(1), DirWord(d)) +
    HeaderBytes(d) + EntryBytes(Id(1031), 80) + EntryBytes(Id(1033), 96) + data
  }

  lemma EightParts(s: seq<byte>, a: seq<byte>, b: seq<byte>, c: seq<byte>, d: seq<byte>, e: seq<byte>, f: seq<byte>,
                   g: seq<byte>, z: seq<byte>)
    requires s == a + b + c + d + e + f + g + z
    ensures Lies(s, 0, a) && Lies(s, |a|, b) && Lies(s, |a| + |b|, c) && Lies(s, |a| + |b| + |c|, d)
    ensures var n := |a| + |b| + |c| + |d|; Lies(s, n, e) && Lies(s, n + |e|, f) && Lies(s, n + |e| + |f|, g)
  {
    assert Lies(s, 0, s);
    LiesSplit(s, 0, a + b + c + d + e + f + g, z);
    LiesSplit(s, 0, a + b + c + d + e + f, g);
    LiesSplit(s, 0, a + b + c + d + e, f);
    LiesSplit(s, 0, a + b + c + d, e);
    LiesSplit(s, 0, a + b + c, d);
    LiesSplit(s, 0, a + b, c);
    LiesSplit(s, 0, a, b);
  }

  lemma PartLengths<T>(d: Dir<T>, key: Key, word: nat)
    ensures |HeaderBytes(d)| == 16 && |EntryBytes(key, word)| == 8
  {
  }

  lemma NumberLies(s: seq<byte>, base: nat, at: nat, id: nat, word: nat)
    requires Lies(s, at, EntryBytes(Id(id), word)) && id < 0x8000_0000 && word < 0x1_0000_0000
    ensures EntryLies(s, base, at, Id(id), word)
  {
  }

  lemma OneEntryLies<T>(s: seq<byte>, d: Dir<T>, word: T -> nat)
    requires |d.numbered| == 1 && d.named == [] && Lies(s, d.at, HeaderBytes(d))
    requires EntryLies(s, 0, d.at + 16, d.numbered[0].key, word(d.numbered[0].target))
    ensures DirLies(s, 0, d, word)
  {
    assert Items(d) == d.numbered;
  }

  lemma TwoEntriesLie<T>(s: seq<byte>, d: Dir<T>, word: T -> nat)
    requires |d.numbered| == 2 && d.named == [] && Lies(s, d.at, HeaderBytes(d))
    requires EntryLies(s, 0, d.at + 16, d.numbered[0].key, word(d.numbered[0].target))
    requires EntryLies(s, 0, d.at + 24, d.numbered[1].key, word(d.numbered[1].target))
    ensures DirLies(s, 0, d, word)
  {
    assert Items(d) == d.numbered;
  }

  lemma FilePartsLie(s: seq<byte>, tree: Tree, names: Names, d: Languages, data: seq<byte>)
    requires s == FileOf(tree, names, d, data) && |data| == 32 && DirWord(names) < 0x1_0000_0000
    requires DirWord(d) < 0x1_0000_0000
    ensures |s| == 112 && Lies(s, 0, HeaderBytes(tree)) && EntryLies(s, 0, 16, Id(16), DirWord(names))
    ensures Lies(s, 24, HeaderBytes(names)) && EntryLies(s, 0, 40, Id(1), DirWord(d))
    ensures Lies(s, 48, HeaderBytes(d)) && EntryLies(s, 0, 64, Id(1031), 80) && EntryLies(s, 0, 72, Id(1033), 96)
  {
    PartLengths(tree, Id(16), DirWord(names));
    PartLengths(names, Id(1), DirWord(d));
    PartLengths(d, Id(1031), 80);
    PartLengths(d, Id(1033), 96);
    EightParts(s, HeaderBytes(tree), EntryBytes(Id(16), DirWord(names)), HeaderBytes(names),
               EntryBytes(Id(1), DirWord(d)), HeaderBytes(d), EntryBytes(Id(1031), 80), EntryBytes(Id(1033), 96), data);
    NumberLies(s, 0, 16, 16, DirWord(names));
    NumberLies(s, 0, 40, 1, DirWord(d));
    NumberLies(s, 0, 64, 1031, 80);
    NumberLies(s, 0, 72, 1033, 96);
  }

  lemma FileHoldsTree(s: seq<byte>, tree: Tree, names: Names, d: Languages, data: seq<byte>)
    requires TwoLanguages(tree, names, d) && s == FileOf(tree, names, d, data) && |data| == 32
    ensures TreeLies(s, 0, tree)
  {
    FilePartsLie(s, tree, names, d, data);
    EachDirectoryLies(s, tree, names, d);
    DirectoriesLie(s, tree, names, d);
  }

  lemma EachDirectoryLies(s: seq<byte>, tree: Tree, names: Names, d: Languages)
    requires TwoLanguages(tree, names, d)
    requires Lies(s, 0, HeaderBytes(tree)) && EntryLies(s, 0, 16, Id(16), DirWord(names))
    requires Lies(s, 24, HeaderBytes(names)) && EntryLies(s, 0, 40, Id(1), DirWord(d))
    requires Lies(s, 48, HeaderBytes(d)) && EntryLies(s, 0, 64, Id(1031), 80) && EntryLies(s, 0, 72, Id(1033), 96)
    ensures DirLies(s, 0, d, DataWord) && DirLies(s, 0, names, DirWord) && DirLies(s, 0, tree, LeadWord)
  {
    TwoEntriesLie(s, d, DataWord);
    OneEntryLies(s, names, DirWord);
    OneEntryLies(s, tree, LeadWord);
  }

  lemma DirectoriesLie(s: seq<byte>, tree: Tree, names: Names, d: Languages)
    requires TwoLanguages(tree, names, d) && |s| == 112
    requires DirLies(s, 0, d, DataWord) && DirLies(s, 0, names, DirWord) && DirLies(s, 0, tree, LeadWord)
    ensures TreeLies(s, 0, tree)
  {
    assert Items(d) == d.numbered && Items(names) == names.numbered && Items(tree) == tree.numbered;
    assert LanguagesLie(s, 0, d);
    assert LeadLies(s, 0, Items(tree)[0].target);
  }

  lemma TreeIsTwofold(tree: Tree, names: Names, d: Languages)
    requires TwoLanguages(tree, names, d)
    ensures AllApart(tree) && !OneLanguageEach(tree)
  {
    assert Items(d) == d.numbered && Items(names) == names.numbered && Items(tree) == tree.numbered;
    assert !OneLanguage(names) by {
      assert |Items(Items(names)[0].target)| == 2;
    }
    assert Items(tree)[0].target == Below(names);
  }

  /** In a file of 112 bytes with one version resource in two languages the walk does not visit the tree. */
  lemma TwoLanguagesExample(s: seq<byte>, tree: Tree, names: Names, d: Languages, data: seq<byte>)
    requires TwoLanguages(tree, names, d) && s == FileOf(tree, names, d, data) && |data| == 32
    ensures TreeLies(s, 0, tree) && Walk(s, 0) != Some(TreeVisits(0, tree))
  {
    FileHoldsTree(s, tree, names, d, data);
    TreeIsTwofold(tree, names, d);
    WalkIsRightIffOneLanguageEach(s, 0, tree);
  }
}

/** From a file's own headers and resource tree to the walk, end to end. */
module ResourceFile {
  import opened Wrappers
  import opened SmbReader
  import opened PeFormat
  import opened PeImage
  import opened ResourceTree
  import opened ResourceWalk
  import opened ResourceImage

  /** The resource directory is named by the third data directory, and lies in this section and no earlier one. */
  ghost predicate ResourcesIn(h: Headers, k: nat) {
    && |h.directories| > 2 && h.directories[2].size != 0 && 0 < h.directories[2].virtualAddress && k < |h.sections|
    && InSection(h.sections[k], h.directories[2].virtualAddress)
    && forall j :: 0 <= j < k ==> !InSection(h.sections[j], h.directories[2].virtualAddress)
  }

  /** Where its bytes are in the file. */
  function ResourcesAt(h: Headers, k: nat): int
    requires |h.directories| > 2 && k < |h.sections|
  {
    h.sections[k].pointerToRawData + (h.directories[2].virtualAddress - h.sections[k].virtualAddress)
  }

  lemma ResourceEntryIs(h: Headers, s: seq<byte>)
    requires |h.directories| > 2 && DirectoriesShow(s, DirectoriesAt(h), h.directories)
    ensures var at := Described(h).directories.value[RESOURCE_ENTRY];
            && at + 8 <= |s| && U32(s, at) == h.directories[2].virtualAddress && U32(s, at + 4) == h.directories[2].size
  {
    assert DirectoryShows(s, DirectoriesAt(h) + 8 * 2, h.directories[2]);
  }

  /** The walk starts at the bytes of the resource directory. */
  lemma ResourcesAreLocated(h: Headers, rest: seq<byte>, k: nat, base: nat)
    requires WellFormed(h) && CodeFor(h, rest) == 0 && ResourcesIn(h, k)
    ensures var s, pe := Image(h) + rest, EagerParse(Image(h) + rest, EMPTY_PE).1;
            && TablesInside(s, pe) && HasResources(s, pe)
            && (IsOffsetOf(s, pe.sections, U32(s, pe.directories.value[RESOURCE_ENTRY]), base) <==>
                base == ResourcesAt(h, k))
  {
    var s := Image(h) + rest;
    ImageIsParsed(h, rest);
    ParseSucceeds(s);
    TablesAreRead(h, rest);
    ResourceEntryIs(h, s);
    AddressLeadsToByte(s, Described(h).sections.value, SectionsAt(h), h.sections, k,
                       h.directories[2].virtualAddress, base);
  }

  /** A file with these headers, and with this tree where they say that the resources are: what is found is exactly
      the tree if and only if every resource has one language at most. */
  lemma FileShowsTreeIff(h: Headers, rest: seq<byte>, k: nat, base: nat, tree: Tree)
    requires WellFormed(h) && CodeFor(h, rest) == 0 && ResourcesIn(h, k)
    requires base == ResourcesAt(h, k) && TreeLies(Image(h) + rest, base, tree) && AllApart(tree)
    ensures var s, pe := Image(h) + rest, EagerParse(Image(h) + rest, EMPTY_PE).1;
            && TablesInside(s, pe) && HasResources(s, pe)
            && IsOffsetOf(s, pe.sections, U32(s, pe.directories.value[RESOURCE_ENTRY]), base)
            && (Walk(s, base) == Some(TreeVisits(base, tree)) <==> OneLanguageEach(tree))
  {
    ResourcesAreLocated(h, rest, k, base);
    WalkIsRightIffOneLanguageEach(Image(h) + rest, base, tree);
  }
}
