/** Packing an archive into named entries, and reading the index and the attachments back by name. */
module ArchivePack {
  import opened Wrappers
  import opened Archive

  /** An entry holds the index, a file's bytes or a file's metadata; encoding them is abstract. */
  datatype Data = Index(archive: Archive) | Content(content: Bytes) | Meta(meta: FileMeta)
  datatype Entry = Entry(name: string, data: Data)

  // ---- entry names ----

  function Digit(d: nat): (c: char)
    requires d < 10
  {
    ('0' as int + d) as char
  }

  function Decimal(n: nat): (s: string)
    ensures s != []
  {
    if n < 10 then [Digit(n)] else Decimal(n / 10) + [Digit(n % 10)]
  }

  function Value(s: string): int {
    if s == [] then 0 else Value(s[..|s| - 1]) * 10 + (s[|s| - 1] as int - '0' as int)
  }

  lemma {:induction false} ValueOfDecimal(n: nat)
    ensures Value(Decimal(n)) == n
  {
    if n < 10 {
      assert Value([Digit(n)][..0]) == 0;
    } else {
      ValueOfDecimal(n / 10);
      assert Decimal(n)[..|Decimal(n)| - 1] == Decimal(n / 10);
    }
  }

  function DataName(i: nat): string {
    "attachment/" + Decimal(i) + ".data"
  }

  function MetaName(i: nat): string {
    "attachment/" + Decimal(i) + ".meta"
  }

  /** The number and the kind of an entry can be read off its name. */
  lemma NamesDiffer(i: nat, j: nat)
    ensures DataName(i) == DataName(j) ==> i == j
    ensures MetaName(i) == MetaName(j) ==> i == j
    ensures DataName(i) != MetaName(j) && DataName(i) != "index.json" && MetaName(i) != "index.json"
  {
    ValueOfDecimal(i);
    ValueOfDecimal(j);
    if DataName(i) == DataName(j) {
      assert DataName(i)[11..|DataName(i)| - 5] == Decimal(i);
      assert DataName(j)[11..|DataName(j)| - 5] == Decimal(j);
    }
    if MetaName(i) == MetaName(j) {
      assert MetaName(i)[11..|MetaName(i)| - 5] == Decimal(i);
      assert MetaName(j)[11..|MetaName(j)| - 5] == Decimal(j);
    }
    assert DataName(i)[|DataName(i)| - 4] == 'd' && MetaName(j)[|MetaName(j)| - 4] == 'm';
    assert DataName(i)[0] == 'a' && MetaName(i)[0] == 'a' && "index.json"[0] == 'i';
  }

  lemma {:induction false} DecimalDigits(n: nat)
    ensures forall i :: 0 <= i < |Decimal(n)| ==> '0' <= Decimal(n)[i] <= '9'
    ensures Decimal(n)[0] == '0' ==> n == 0
  {
    if n >= 10 { DecimalDigits(n / 10); }
  }

  /** File i is stored as `attachment/i.data`, its metadata as `attachment/i.meta`, with i in decimal. */
  lemma EntryPaths(i: nat) returns (digits: string)
    ensures Value(digits) == i && digits != [] && forall k :: 0 <= k < |digits| ==> '0' <= digits[k] <= '9'
    ensures digits[0] == '0' ==> i == 0
    ensures DataName(i) == "attachment/" + digits + ".data" && MetaName(i) == "attachment/" + digits + ".meta"
  {
    digits := Decimal(i);
    ValueOfDecimal(i);
    DecimalDigits(i);
  }

  // ---- packing ----

  function Pair(i: nat, f: File): seq<Entry> {
    [Entry(DataName(i), Content(f.content)), Entry(MetaName(i), Meta(FileMeta(f.contentType, f.filename)))]
  }

  function Packed(a: Archive, files: seq<File>): seq<Entry> {
    if files == [] then [Entry("index.json", Index(a))]
    else Packed(a, files[..|files| - 1]) + Pair(|files| - 1, files[|files| - 1])
  }

  method Pack(a: Archive, files: seq<File>) returns (entries: seq<Entry>)
    ensures entries == Packed(a, files)
  {
    entries := [Entry("index.json", Index(a))];
    for i := 0 to |files|
      invariant entries == Packed(a, files[..i])
    {
      assert files[..i + 1][..i] == files[..i];
      entries := entries + [Entry(DataName(i), Content(files[i].content))];
      entries := entries + [Entry(MetaName(i), Meta(FileMeta(files[i].contentType, files[i].filename)))];
    }
    assert files[..|files|] == files;
  }

  // ---- reading ----

  function ByName(entries: seq<Entry>, name: string): Option<Data> {
    if entries == [] then None
    else if entries[|entries| - 1].name == name then Some(entries[|entries| - 1].data)
    else ByName(entries[..|entries| - 1], name)
  }

  function ExtractIndex(entries: seq<Entry>): Option<Archive> {
    match ByName(entries, "index.json")
    case Some(Index(a)) => Some(a)
    case _ => None
  }

  /** The metadata first, then the bytes. */
  function ExtractAttachment(entries: seq<Entry>, i: nat): Option<File> {
    match ByName(entries, MetaName(i))
    case Some(Meta(m)) =>
      (match ByName(entries, DataName(i))
       case Some(Content(c)) => Some(File(m.contentType, m.filename, c))
       case _ => None)
    case _ => None
  }

  lemma ByNameOfPair(entries: seq<Entry>, i: nat, f: File, name: string)
    ensures ByName(entries + Pair(i, f), name) ==
      if name == MetaName(i) then Some(Meta(FileMeta(f.contentType, f.filename)))
      else if name == DataName(i) then Some(Content(f.content))
      else ByName(entries, name)
  {
    hide Decimal, DataName, MetaName;
    var all := entries + Pair(i, f);
    assert all[..|all| - 1] == entries + [Pair(i, f)[0]];
    assert (entries + [Pair(i, f)[0]])[..|entries|] == entries;
  }

  lemma {:induction false} NamesFound(a: Archive, files: seq<File>, i: nat)
    ensures ByName(Packed(a, files), DataName(i)) == if i < |files| then Some(Content(files[i].content)) else None
    ensures ByName(Packed(a, files), MetaName(i)) ==
      if i < |files| then Some(Meta(FileMeta(files[i].contentType, files[i].filename))) else None
    ensures ByName(Packed(a, files), "index.json") == Some(Index(a))
  {
    hide DataName, MetaName, Pair;
    NamesDiffer(i, i);
    if files == [] {
      JustTheIndex(a, DataName(i));
      JustTheIndex(a, MetaName(i));
      JustTheIndex(a, "index.json");
    } else {
      var front, n := files[..|files| - 1], |files| - 1;
      NamesFound(a, front, i);
      NamesDiffer(i, n);
      NamesDiffer(n, i);
      ByNameOfPair(Packed(a, front), n, files[n], DataName(i));
      ByNameOfPair(Packed(a, front), n, files[n], MetaName(i));
      ByNameOfPair(Packed(a, front), n, files[n], "index.json");
    }
  }

  lemma JustTheIndex(a: Archive, name: string)
    ensures ByName(Packed(a, []), name) == if name == "index.json" then Some(Index(a)) else None
  {
    var e := Entry("index.json", Index(a));
    assert [e][..0] == [];
    assert ByName([], name) == None;
  }

  /** What was packed is read back: the index, attachment i for file i, and no attachment beyond the last. */
  lemma ExtractUndoesPack(a: Archive, files: seq<File>, i: nat)
    ensures ExtractIndex(Packed(a, files)) == Some(a)
    ensures ExtractAttachment(Packed(a, files), i) == if i < |files| then Some(files[i]) else None
  {
    hide DataName, MetaName, Packed;
    NamesFound(a, files, i);
  }

  /** So every file index in a faithful archive can be fetched, and gives the item's own file. */
  lemma IndexesCanBeFetched(s: Server, uid: Uid, mids: seq<Mid>, a: Archive, files: seq<File>, i: nat)
    requires Faithful(s, uid, mids, a, files) && i < |mids| && IsFile(s.messages[mids[i]].contentType)
    ensures var m, e := s.messages[mids[i]], a.messages[i];
      && e.fileId.Some? && ExtractAttachment(Packed(a, files), e.fileId.value) == Some(UploadOf(s, m.content))
      && (e.thumbnailId.Some? <==> ThumbnailOf(s, m.content).Some?)
      && (e.thumbnailId.Some? ==> ExtractAttachment(Packed(a, files), e.thumbnailId.value) == ThumbnailOf(s, m.content))
  {
    assert MessageEntry(s, uid, files, a.messages[i], mids[i]);
    hide Packed, ExtractAttachment, Faithful, UploadOf, ThumbnailOf;
    var e := a.messages[i];
    ExtractUndoesPack(a, files, e.fileId.value);
    if e.thumbnailId.Some? { ExtractUndoesPack(a, files, e.thumbnailId.value); }
  }
}
