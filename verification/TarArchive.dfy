/** Building a tar archive from the files a directory walk yields: the archive writer and the
    sequential form of TarDir. An archive is the sequence of its entries. */
module TarArchive {
  import opened Seqs
  import opened Bytes
  import opened BufferPool

  datatype Header = Header(name: string, size: nat, encodable: bool)

  /** A regular file in an archive, with the size its header announced. */
  datatype Entry = Entry(name: string, size: nat, content: seq<byte>)

  /** What a walk yields, in walk order. */
  datatype WalkItem = Directory(path: string) | Regular(file: File) | Unreadable(path: string)

  function HeaderOf(f: File): Header { Header(f.path, f.size, f.encodable) }

  // ---------- the archive writer ----------

  /** The last announced entry has all its bytes. */
  predicate Flushed(entries: seq<Entry>) {
    entries == [] || |entries[|entries| - 1].content| == entries[|entries| - 1].size
  }

  class TarWriter {
    var entries: seq<Entry>

    /** Nothing ever exceeds its announced size, and only the last entry can fall short. */
    ghost predicate Valid() reads this { WellSized(entries) }

    constructor ()
      ensures Valid() && entries == []
    {
      entries := [];
    }

    /** Fails when the previous entry is short of bytes or the header cannot be encoded. */
    method WriteHeader(h: Header) returns (ok: bool)
      requires Valid()
      modifies this
      ensures Valid()
      ensures ok == (Flushed(old(entries)) && h.encodable)
      ensures entries == if ok then old(entries) + [Entry(h.name, h.size, [])] else old(entries)
    {
      if entries != [] && |entries[|entries| - 1].content| < entries[|entries| - 1].size {
        return false;
      }
      if !h.encodable {
        return false;
      }
      entries := entries + [Entry(h.name, h.size, [])];
      return true;
    }

    /** Fails, after writing what fits, when there are more bytes than announced. */
    method Write(data: seq<byte>) returns (ok: bool)
      requires Valid() && entries != []
      modifies this
      ensures Valid()
      ensures var last := old(entries)[|old(entries)| - 1];
              && ok == (|last.content| + |data| <= last.size)
              && |entries| == |old(entries)|
              && (ok ==> entries == old(entries)[|entries| - 1 := last.(content := last.content + data)])
    {
      var last := entries[|entries| - 1];
      var room := last.size - |last.content|;
      ok := |data| <= room;
      var fits := if ok then data else data[..room];
      entries := entries[|entries| - 1 := last.(content := last.content + fits)];
    }

    /** Fails when the last entry is short of bytes. */
    method Close() returns (ok: bool)
      requires Valid()
      ensures ok == Flushed(entries)
    {
      return entries == [] || |entries[|entries| - 1].content| == entries[|entries| - 1].size;
    }
  }

  ghost predicate WellSized(entries: seq<Entry>) {
    && (forall i :: 0 <= i < |entries| ==> |entries[i].content| <= entries[i].size)
    && (forall i :: 0 <= i < |entries| - 1 ==> |entries[i].content| == entries[i].size)
  }

  // ---------- what sequential archiving computes ----------

  /** One file: stat, header, open, copy. */
  function AddFile(entries: seq<Entry>, f: File): Option<seq<Entry>> {
    if f.statOk && f.headerOk && Flushed(entries) && f.encodable && f.openable && f.readable && |f.content| <= f.size
    then Some(entries + [Entry(f.path, f.size, f.content)])
    else None
  }

  function AddItems(walk: seq<WalkItem>): Option<seq<Entry>> {
    if walk == [] then Some([]) else
      match AddItems(walk[..|walk| - 1])
      case None => None
      case Some(entries) =>
        match walk[|walk| - 1]
        case Directory(_) => Some(entries)
        case Unreadable(_) => None
        case Regular(f) => AddFile(entries, f)
  }

  lemma AddItemsSnoc(walk: seq<WalkItem>, i: nat)
    requires i < |walk|
    ensures AddItems(walk[..i + 1]) ==
            match AddItems(walk[..i])
            case None => None
            case Some(entries) =>
              match walk[i]
              case Directory(_) => Some(entries)
              case Unreadable(_) => None
              case Regular(f) => AddFile(entries, f)
  {
    assert walk[..i + 1][..i] == walk[..i];
  }

  lemma {:induction false} AddItemsFails(walk: seq<WalkItem>, i: nat)
    requires i <= |walk| && AddItems(walk[..i]).None?
    ensures AddItems(walk).None?
  {
    if i == |walk| {
      assert walk[..i] == walk;
    } else {
      var prefix := walk[..|walk| - 1];
      assert prefix[..i] == walk[..i];
      AddItemsFails(prefix, i);
    }
  }

  function SequentialResult(walk: seq<WalkItem>): Option<seq<Entry>> {
    match AddItems(walk)
    case None => None
    case Some(entries) => if Flushed(entries) then Some(entries) else None
  }

  /** Archiving in walk order, file by file, through one pooled copy buffer. */
  method TarDirSequential(walk: seq<WalkItem>, buffers: BufferPool) returns (archive: Option<seq<Entry>>)
    requires buffers.Disciplined()
    modifies buffers, buffers.pool
    ensures archive == SequentialResult(walk)
    ensures buffers.Disciplined() && buffers.lent == old(buffers.lent)
  {
    var copyBuffer := buffers.Get();
    var tw := new TarWriter();
    var ok := true;
    var i := 0;
    while i < |walk| && ok
      invariant 0 <= i <= |walk|
      invariant tw.Valid() && fresh(tw)
      invariant ok ==> AddItems(walk[..i]) == Some(tw.entries)
      invariant !ok ==> AddItems(walk[..i]).None?
      modifies tw, copyBuffer
    {
      AddItemsSnoc(walk, i);
      match walk[i] {
        case Directory(_) =>
        case Unreadable(_) => ok := false;
        case Regular(f) => ok := CopyFile(f, tw, copyBuffer);
      }
      i := i + 1;
    }
    buffers.Put(copyBuffer);
    if !ok {
      AddItemsFails(walk, i);
      return None;
    }
    assert walk[..i] == walk;
    ok := tw.Close();
    archive := if ok then Some(tw.entries) else None;
  }

  /** Header first, then the bytes in pieces. */
  method CopyFile(f: File, tw: TarWriter, copyBuffer: array<byte>) returns (ok: bool)
    requires tw.Valid() && copyBuffer.Length > 0
    modifies tw, copyBuffer
    ensures tw.Valid()
    ensures ok <==> AddFile(old(tw.entries), f).Some?
    ensures ok ==> AddFile(old(tw.entries), f) == Some(tw.entries)
  {
    if !f.statOk || !f.headerOk {
      return false;
    }
    ok := tw.WriteHeader(HeaderOf(f));
    if !ok || !f.openable {
      return false;
    }
    assert f.content[..|f.content|] == f.content;
    ok := CopyContent(f, tw, copyBuffer, old(tw.entries));
  }

  /** The bytes in pieces, until the file ends, fails or is longer than announced. */
  method CopyContent(f: File, tw: TarWriter, copyBuffer: array<byte>, ghost before: seq<Entry>) returns (ok: bool)
    requires tw.Valid() && copyBuffer.Length > 0
    requires tw.entries == before + [Part(f, 0)]
    modifies tw, copyBuffer
    ensures tw.Valid()
    ensures ok <==> f.readable && |f.content| <= f.size
    ensures ok ==> tw.entries == before + [Part(f, |f.content|)]
  {
    var reader := new FileReader(f);
    var status := More;
    ok := true;
    while status == More && ok
      invariant reader.Valid() && reader.file == f && fresh(reader)
      invariant tw.Valid()
      invariant status == Eof ==> f.readable && reader.pos == |f.content|
      invariant status == Failed ==> !f.readable
      invariant ok ==> tw.entries == before + [Part(f, reader.pos)]
      invariant !ok ==> |f.content| > f.size
      decreases ok && status == More, |f.content| - reader.pos
    {
      ok, status := CopyChunk(reader, tw, copyBuffer, before);
    }
    assert ok ==> tw.entries[|before|] == Part(f, reader.pos);
    if status == Failed {
      ok := false;
    }
  }

  function Part(f: File, n: nat): Entry
    requires n <= |f.content|
  {
    Entry(f.path, f.size, f.content[..n])
  }

  lemma NextPart(f: File, n: nat, data: seq<byte>)
    requires n + |data| <= |f.content| && data == f.content[n..n + |data|]
    ensures Part(f, n).(content := Part(f, n).content + data) == Part(f, n + |data|)
  {
  }

  method CopyChunk(reader: FileReader, tw: TarWriter, copyBuffer: array<byte>, ghost before: seq<Entry>)
    returns (ok: bool, status: ReadStatus)
    requires reader.Valid() && tw.Valid() && copyBuffer.Length > 0
    requires tw.entries == before + [Part(reader.file, reader.pos)]
    modifies reader, tw, copyBuffer
    ensures reader.Valid() && tw.Valid()
    ensures status == More ==> reader.pos > old(reader.pos)
    ensures status == Eof ==> reader.file.readable && reader.pos == |reader.file.content|
    ensures status == Failed ==> !reader.file.readable
    ensures ok ==> tw.entries == before + [Part(reader.file, reader.pos)]
    ensures !ok ==> |reader.file.content| > reader.file.size
  {
    var n;
    n, status := reader.Read(copyBuffer);
    ok := true;
    if n > 0 {
      var data := copyBuffer[..n];
      NextPart(reader.file, old(reader.pos), data);
      ok := tw.Write(data);
    }
  }

  // ---------- when archiving succeeds, and with what ----------

  predicate Archivable(f: File) {
    f.statOk && f.headerOk && f.encodable && f.openable && f.readable && |f.content| == f.size
  }

  predicate AllArchivable(walk: seq<WalkItem>) {
    forall i :: 0 <= i < |walk| ==> !walk[i].Unreadable? && (walk[i].Regular? ==> Archivable(walk[i].file))
  }

  function Files(walk: seq<WalkItem>): seq<File> {
    if walk == [] then [] else
      Files(walk[..|walk| - 1]) + (match walk[|walk| - 1] case Regular(f) => [f] case _ => [])
  }

  function EntryOf(f: File): Entry { Entry(f.path, f.size, f.content) }

  function EntriesOf(files: seq<File>): seq<Entry> {
    seq(|files|, i requires 0 <= i < |files| => EntryOf(files[i]))
  }

  lemma EntriesSnoc(files: seq<File>, f: File)
    ensures EntriesOf(files + [f]) == EntriesOf(files) + [EntryOf(f)]
  {
  }

  /** Up to the last entry, which may still be short. */
  ghost predicate Partly(walk: seq<WalkItem>, entries: seq<Entry>) {
    && entries == EntriesOf(Files(walk))
    && (AllArchivable(walk) <==> Flushed(entries))
  }

  lemma {:induction false} AddItemsBuildsTheEntries(walk: seq<WalkItem>)
    ensures match AddItems(walk)
            case Some(entries) => Partly(walk, entries)
            case None => !AllArchivable(walk)
  {
    if walk != [] {
      var prefix, last := walk[..|walk| - 1], walk[|walk| - 1];
      AddItemsBuildsTheEntries(prefix);
      assert AllArchivable(walk) <==>
        AllArchivable(prefix) && !last.Unreadable? && (last.Regular? ==> Archivable(last.file)) by {
        assert walk == prefix + [last];
      }
      if AddItems(prefix).Some? && last.Regular? {
        EntriesSnoc(Files(prefix), last.file);
      }
    }
  }

  /** Sequential archiving succeeds exactly when every directory and file can be processed and every
      file is as long as its header says, and then yields one entry per file, in walk order. */
  lemma SequentialArchivesEverything(walk: seq<WalkItem>)
    ensures SequentialResult(walk) == if AllArchivable(walk) then Some(EntriesOf(Files(walk))) else None
  {
    AddItemsBuildsTheEntries(walk);
  }

  /** The same, spelled out. */
  lemma SequentialSpelledOut(walk: seq<WalkItem>)
    ensures SequentialResult(walk).Some? <==>
            forall i :: 0 <= i < |walk| ==>
              && !walk[i].Unreadable?
              && (walk[i].Regular? ==>
                    var f := walk[i].file;
                    && f.statOk && f.headerOk && f.encodable && f.openable && f.readable
                    && |f.content| == f.size)
    ensures SequentialResult(walk).Some? ==>
              var entries, files := SequentialResult(walk).value, Files(walk);
              |entries| == |files| &&
              forall k :: 0 <= k < |files| ==> entries[k] == Entry(files[k].path, files[k].size, files[k].content)
  {
    SequentialArchivesEverything(walk);
  }
}
