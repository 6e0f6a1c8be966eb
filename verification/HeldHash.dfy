/**
 The held continuation: hashing a dirty database file as history saw it, and accepting exactly two
 such files.

 The hash is injective, so a digest stands for the bytes it absorbed. How many bytes a read delivers
 is arbitrary.
 */
module HeldHash {
  import opened Basics

  type byte = bv8

  const HEADER_OFFSET: nat := 9
  const DIRTY_BIT: byte := 2

  predicate BitSet(b: byte) {
    b & DIRTY_BIT != 0
  }

  function Cleared(b: byte): byte {
    b & !DIRTY_BIT
  }

  /** A held file: its recorded length, its bytes, and how many bytes each read has ready. */
  datatype HeldFile = HeldFile(relative: string, length: nat, content: seq<byte>, ready: seq<nat>)

  /** An inventory row: the length is that of the hashed content. */
  datatype Row = Row(relative: string, content: seq<byte>)

  predicate ContinuationDb(path: string) {
    path == "one/state/state-vault.redb" || path == "two/state/state-vault.redb"
  }

  /** The content with the dirty bit of the header byte cleared. */
  function Normalized(content: seq<byte>): seq<byte>
    requires |content| > HEADER_OFFSET
  {
    content[HEADER_OFFSET := Cleared(content[HEADER_OFFSET])]
  }

  predicate Dirty(content: seq<byte>) {
    |content| > HEADER_OFFSET && BitSet(content[HEADER_OFFSET])
  }

  /** No read delivers nothing before the end of the file. */
  predicate Progressing(ready: seq<nat>) {
    forall n :: n in ready ==> n > 0
  }

  function Min(a: nat, b: nat): nat {
    if a < b then a else b
  }

  /** What has been absorbed after `n` bytes. */
  function Absorbed(content: seq<byte>, n: nat): seq<byte>
    requires n <= |content| && |content| > HEADER_OFFSET
  {
    Normalized(content)[..n]
  }

  class Core {
    const readBuffer: array<byte>
    var payloadHash: seq<byte>          // bytes absorbed by the running hash
    var heldNormalizationBytes: nat
    var entryRows: seq<Row>             // the accepted entry databases

    constructor (size: nat)
      requires size > 0
      ensures readBuffer.Length == size && fresh(readBuffer)
      ensures payloadHash == [] && heldNormalizationBytes == 0 && entryRows == []
    {
      readBuffer := new byte[size];
      payloadHash, heldNormalizationBytes, entryRows := [], 0, [];
    }

    /** Fills the buffer's front with the next bytes: at most `count`, possibly fewer. */
    method Read(content: seq<byte>, position: nat, count: nat, ready: Option<nat>) returns (n: nat)
      requires count <= readBuffer.Length && position <= |content|
      modifies readBuffer
      ensures n <= count && position + n <= |content|
      ensures readBuffer[..n] == content[position..position + n]
      ensures n == 0 <==> count == 0 || position == |content| || ready == Some(0)
    {
      n := Min(count, |content| - position);
      if ready.Some? {
        n := Min(n, ready.value);
      }
      for i := 0 to n
        invariant forall k :: 0 <= k < i ==> readBuffer[k] == content[position + k]
      {
        readBuffer[i] := content[position + i];
      }
    }

    /**
     The chunked loop. Whatever the pattern of short reads, it absorbs the content with the one bit
     cleared, and nothing else.
     */
    method DirtyHeaderHistoricalHash(item: HeldFile, length: nat) returns (hash: Option<seq<byte>>)
      requires readBuffer.Length > 0 && payloadHash == []
      modifies readBuffer, this`payloadHash, this`heldNormalizationBytes
      ensures hash.Some? ==>
                && ContinuationDb(item.relative) && item.length == length == |item.content|
                && Dirty(item.content) && hash.value == Normalized(item.content)
      ensures ContinuationDb(item.relative) && item.length == length == |item.content| && Dirty(item.content)
              && Progressing(item.ready)
              ==> hash.Some?
      ensures hash.Some? ==> payloadHash == [] && heldNormalizationBytes == old(heldNormalizationBytes) + length
    {
      if !ContinuationDb(item.relative) || length <= HEADER_OFFSET || item.length != length {
        return None;
      }
      hide BitSet, Cleared, ContinuationDb, Normalized, Absorbed;
      var content := item.content;
      NothingAbsorbed(content);
      var bytes, normalized, turn := 0, false, 0;
      while bytes < length
        invariant bytes <= length && bytes <= |content|
        invariant normalized <==> bytes > HEADER_OFFSET
        invariant normalized ==> Dirty(content)
        invariant |content| > HEADER_OFFSET ==> payloadHash == Absorbed(content, bytes)
        invariant heldNormalizationBytes == old(heldNormalizationBytes) + bytes
        decreases length - bytes
      {
        var ready := if turn < |item.ready| then Some(item.ready[turn]) else None;
        var count := Read(content, bytes, Min(readBuffer.Length, length - bytes), ready);
        turn := turn + 1;
        if count == 0 {
          assert ready.Some? ==> ready.value in item.ready;
          return None;
        }
        if bytes <= HEADER_OFFSET && bytes + count > HEADER_OFFSET {
          var offset := HEADER_OFFSET - bytes;
          assert readBuffer[..count][offset] == content[HEADER_OFFSET];
          if !BitSet(readBuffer[offset]) {
            return None;
          }
          ghost var chunk := readBuffer[..count];
          ChunkNormalized(content, bytes, count, chunk);
          readBuffer[offset] := Cleared(readBuffer[offset]);
          assert readBuffer[..count] == chunk[offset := Cleared(chunk[offset])];
          normalized := true;
        } else {
          ChunkUntouched(content, bytes, count);
        }
        payloadHash := payloadHash + readBuffer[..count];
        bytes := bytes + count;
        heldNormalizationBytes := heldNormalizationBytes + count;
      }
      var trailing := Read(content, bytes, 1, None);
      if !normalized || trailing != 0 {
        return None;
      }
      AllAbsorbed(content);
      hash := Some(payloadHash);
      payloadHash := [];
    }

    /**
     `HeldBaselineHashes` in continuation mode: every row against history, the two databases through the
     cleared bit.
     */
    method HeldBaseline(rows: seq<Row>, files: seq<HeldFile>) returns (ok: bool)
      requires readBuffer.Length > 0 && payloadHash == [] && |files| == |rows|
      requires forall i :: 0 <= i < |rows| ==>
               files[i].relative == rows[i].relative && files[i].length == |files[i].content|
      modifies readBuffer, this`payloadHash, this`heldNormalizationBytes, this`entryRows
      ensures ok ==> Accepted(rows, files) && entryRows == Databases(rows, files, |rows|)
      ensures Accepted(rows, files) && (forall f :: f in files ==> Progressing(f.ready)) ==> ok
    {
      entryRows := [];
      for i := 0 to |rows|
        invariant payloadHash == [] && |entryRows| <= 2
        invariant entryRows == Databases(rows, files, i)
        invariant forall k :: 0 <= k < i ==> RowAccepted(rows[k], files[k])
      {
        var historical, actual := rows[i], Row(rows[i].relative, files[i].content);
        if ContinuationDb(historical.relative) {
          if |entryRows| >= 2 {
            MoreDatabases(rows, files, i + 1, |rows|);
            return false;
          }
          if |actual.content| != |historical.content| || actual.content == historical.content {
            assert !RowAccepted(rows[i], files[i]);
            return false;
          }
          var hash := DirtyHeaderHistoricalHash(files[i], |historical.content|);
          if hash != Some(historical.content) {
            return false;
          }
          entryRows := entryRows + [actual];
        } else if actual.content != historical.content {
          assert !RowAccepted(rows[i], files[i]);
          return false;
        }
      }
      ok := |entryRows| == 2;
    }
  }

  lemma ChunkNormalized(content: seq<byte>, bytes: nat, count: nat, chunk: seq<byte>)
    requires bytes <= HEADER_OFFSET < bytes + count <= |content| && chunk == content[bytes..bytes + count]
    ensures Absorbed(content, bytes + count)
            == Absorbed(content, bytes) + chunk[HEADER_OFFSET - bytes := Cleared(chunk[HEADER_OFFSET - bytes])]
  {
  }

  lemma NothingAbsorbed(content: seq<byte>)
    ensures |content| > HEADER_OFFSET ==> Absorbed(content, 0) == []
  {
  }

  lemma AllAbsorbed(content: seq<byte>)
    requires |content| > HEADER_OFFSET
    ensures Absorbed(content, |content|) == Normalized(content)
  {
  }

  lemma ChunkUntouched(content: seq<byte>, bytes: nat, count: nat)
    requires bytes + count <= |content| && !(bytes <= HEADER_OFFSET < bytes + count)
    ensures |content| > HEADER_OFFSET ==> Absorbed(content, bytes + count) ==
                                          Absorbed(content, bytes) + content[bytes..bytes + count]
  {
  }

  /** What the baseline asks of one row. */
  predicate RowAccepted(historical: Row, actual: HeldFile) {
    if ContinuationDb(historical.relative) then
      Dirty(actual.content) && |actual.content| == |historical.content|
          && Normalized(actual.content) == historical.content
    else
      actual.content == historical.content
  }

  function Databases(rows: seq<Row>, files: seq<HeldFile>, n: nat): seq<Row>
    requires n <= |rows| == |files|
  {
    if n == 0 then []
    else Databases(rows, files, n - 1) +
         (if ContinuationDb(rows[n - 1].relative) then [Row(rows[n - 1].relative, files[n - 1].content)] else [])
  }

  lemma {:induction false} MoreDatabases(rows: seq<Row>, files: seq<HeldFile>, m: nat, n: nat)
    requires m <= n <= |rows| == |files|
    ensures |Databases(rows, files, m)| <= |Databases(rows, files, n)|
    decreases n
  {
    if m < n {
      MoreDatabases(rows, files, m, n - 1);
    }
  }

  predicate Accepted(rows: seq<Row>, files: seq<HeldFile>)
    requires |rows| == |files|
  {
    (forall i :: 0 <= i < |rows| ==> RowAccepted(rows[i], files[i])) && |Databases(rows, files, |rows|)| == 2
  }

  /** An accepted database differs from history in that single bit, so the raw comparison could not have passed. */
  lemma SingleBit(historical: Row, actual: HeldFile)
    requires ContinuationDb(historical.relative) && |actual.content| == |historical.content| > HEADER_OFFSET
    ensures RowAccepted(historical, actual) <==>
            && !BitSet(historical.content[HEADER_OFFSET])
            && actual.content == historical.content[HEADER_OFFSET := historical.content[HEADER_OFFSET] | DIRTY_BIT]
    ensures RowAccepted(historical, actual) ==> actual.content != historical.content
  {
    var (h, a) := (historical.content, actual.content);
    ClearThenSet(a[HEADER_OFFSET], h[HEADER_OFFSET]);
    var dirtied := h[HEADER_OFFSET] | DIRTY_BIT;
    hide BitSet, Cleared, ContinuationDb;
    OnlyThatByte(a, h, Cleared(a[HEADER_OFFSET]));
    OnlyThatByte(h, a, dirtied);
  }

  /** Two contents agree after replacing the header byte of the first exactly when they agree elsewhere and there. */
  lemma OnlyThatByte(a: seq<byte>, h: seq<byte>, b: byte)
    requires |a| == |h| > HEADER_OFFSET
    ensures a[HEADER_OFFSET := b] == h <==> h[HEADER_OFFSET] == b && h[HEADER_OFFSET := a[HEADER_OFFSET]] == a
  {
    if a[HEADER_OFFSET := b] == h {
      assert h[HEADER_OFFSET := a[HEADER_OFFSET]] == a;
    }
    if h[HEADER_OFFSET] == b && h[HEADER_OFFSET := a[HEADER_OFFSET]] == a {
      assert a[HEADER_OFFSET := b] == h;
    }
  }

  lemma ClearThenSet(a: byte, h: byte)
    ensures BitSet(a) && Cleared(a) == h <==> !BitSet(h) && a == h | DIRTY_BIT
  {
  }

  /** `HeldEntryRow`: the entry database filed under this row's path, or the historical row. */
  function HeldEntryRow(entries: seq<Row>, historical: Row): Row {
    if entries == [] then historical
    else if entries[0].relative == historical.relative then entries[0]
    else HeldEntryRow(entries[1..], historical)
  }

  lemma {:induction false} EntryFound(entries: seq<Row>, historical: Row, i: nat)
    requires i < |entries| && entries[i].relative == historical.relative
    requires forall k :: 0 <= k < i ==> entries[k].relative != historical.relative
    ensures HeldEntryRow(entries, historical) == entries[i]
  {
    if i > 0 {
      EntryFound(entries[1..], historical, i - 1);
    }
  }

  lemma {:induction false} EntryMissing(entries: seq<Row>, historical: Row)
    requires forall k :: 0 <= k < |entries| ==> entries[k].relative != historical.relative
    ensures HeldEntryRow(entries, historical) == historical
  {
    if entries != [] {
      EntryMissing(entries[1..], historical);
    }
  }

  /** Every collected database comes from a row before `n`, and every database row before `n` is collected, once. */
  lemma {:induction false} DatabasesCollected(rows: seq<Row>, files: seq<HeldFile>, n: nat, i: nat) returns (at: nat)
    requires n <= |rows| == |files| && i < n
    requires forall j, k :: 0 <= j < k < |rows| ==> rows[j].relative != rows[k].relative
    ensures forall k :: 0 <= k < |Databases(rows, files, n)|
                        && Databases(rows, files, n)[k].relative == rows[i].relative ==>
              ContinuationDb(rows[i].relative) && k == at
    ensures ContinuationDb(rows[i].relative) ==>
              at < |Databases(rows, files, n)|
                  && Databases(rows, files, n)[at] == Row(rows[i].relative, files[i].content)
    decreases n
  {
    if i == n - 1 {
      at := |Databases(rows, files, n - 1)|;
      DatabasesFromRows(rows, files, n - 1);
    } else {
      at := DatabasesCollected(rows, files, n - 1, i);
    }
  }

  ghost predicate FromRow(row: Row, rows: seq<Row>, n: nat)
    requires n <= |rows|
  {
    exists i :: 0 <= i < n && rows[i].relative == row.relative
  }

  lemma {:induction false} DatabasesFromRows(rows: seq<Row>, files: seq<HeldFile>, n: nat)
    requires n <= |rows| == |files|
    ensures forall k :: 0 <= k < |Databases(rows, files, n)| ==> FromRow(Databases(rows, files, n)[k], rows, n)
  {
    if n > 0 {
      DatabasesFromRows(rows, files, n - 1);
      forall k | 0 <= k < |Databases(rows, files, n)|
        ensures FromRow(Databases(rows, files, n)[k], rows, n)
      {
        if k < |Databases(rows, files, n - 1)| {
          assert FromRow(Databases(rows, files, n - 1)[k], rows, n - 1);
        } else {
          assert rows[n - 1].relative == Databases(rows, files, n)[k].relative;
        }
      }
    }
  }

  /**
   After an accepted baseline the entry view of every row is what is on disk, while the historical rows
   stand unchanged.
   */
  lemma EntryViewIsActual(rows: seq<Row>, files: seq<HeldFile>, i: nat)
    requires |rows| == |files| && i < |rows| && Accepted(rows, files)
    requires forall j, k :: 0 <= j < k < |rows| ==> rows[j].relative != rows[k].relative
    ensures HeldEntryRow(Databases(rows, files, |rows|), rows[i]) == Row(rows[i].relative, files[i].content)
  {
    var entries := Databases(rows, files, |rows|);
    var at := DatabasesCollected(rows, files, |rows|, i);
    assert RowAccepted(rows[i], files[i]);
    if ContinuationDb(rows[i].relative) {
      EntryFound(entries, rows[i], at);
    } else {
      EntryMissing(entries, rows[i]);
    }
  }
}
