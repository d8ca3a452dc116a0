/** The C interface keeps file indices in the caller's order while libtorrent
    sorts the list and interleaves pad entries. The handle carries the
    translation. */
module FileMap {
  type Path = string
  type Hash = seq<bv8>

  datatype Entry = Entry(path: Path, size: nat, pad: bool)

  ghost predicate DistinctPaths(files: seq<Entry>) {
    forall i, j :: 0 <= i < j < |files| ==> files[i].path != files[j].path
  }

  function NonPads(files: seq<Entry>): seq<Entry> {
    if files == [] then []
    else if files[0].pad then NonPads(files[1..])
    else [files[0]] + NonPads(files[1..])
  }

  /** What canonicalisation is trusted to do: reorder the entries that are not
      padding, and put padding wherever it likes. */
  ghost predicate Canonicalises(files: seq<Entry>, canon: seq<Entry>) {
    multiset(NonPads(files)) == multiset(NonPads(canon))
  }

  /** The one entry of the list with this path that is not padding. */
  ghost predicate IsAt(canon: seq<Entry>, k: int, path: Path) {
    0 <= k < |canon| && !canon[k].pad && canon[k].path == path
  }

  ghost predicate Ambiguous(canon: seq<Entry>) {
    exists i, j :: 0 <= i < j < |canon| && !canon[i].pad && !canon[j].pad && canon[i].path == canon[j].path
  }

  ghost predicate Translates(files: seq<Entry>, canon: seq<Entry>, fileMap: seq<int>) {
    && |fileMap| == |files|
    && forall i :: 0 <= i < |files| ==>
         if fileMap[i] == -1 then forall k :: !IsAt(canon, k, files[i].path)
         else IsAt(canon, fileMap[i], files[i].path)
  }

  /** A piece of a mapped file, and a hash that is not reserved for "unset". */
  predicate Takes(canon: seq<Entry>, fileMap: seq<int>, pieceLength: nat, fileIndex: int, piece: int, hash: Hash) {
    && 0 <= fileIndex < |fileMap| && 0 <= fileMap[fileIndex] < |canon|
    && 0 <= piece && piece * pieceLength < canon[fileMap[fileIndex]].size
    && hash != seq(32, _ => 0)
  }

  class CreateTorrent {
    const canon: seq<Entry>
    const pieceLength: nat
    var fileMap: seq<int>
    var hashes: map<(int, int), Hash>      // by canonical index and piece

    constructor (canon: seq<Entry>, pieceLength: nat)
      ensures this.canon == canon && this.pieceLength == pieceLength
      ensures fileMap == [] && hashes == map[]
    {
      this.canon, this.pieceLength := canon, pieceLength;
      fileMap, hashes := [], map[];
    }

    /** The tail of `ct_create_torrent_new`: index the canonical entries by
        path, then look every caller's entry up. */
    method MapFiles(files: seq<Entry>) returns (ok: bool)
      requires fileMap == []
      modifies this`fileMap
      ensures ok <==> !Ambiguous(canon)
      ensures ok ==> Translates(files, canon, fileMap)
    {
      var byPath: map<Path, int> := map[];
      for i := 0 to |canon|
        invariant forall p :: p in byPath ==> byPath[p] < i && IsAt(canon, byPath[p], p)
        invariant forall k :: 0 <= k < i && !canon[k].pad ==> canon[k].path in byPath && byPath[canon[k].path] == k
      {
        if !canon[i].pad {
          if canon[i].path in byPath {
            return false;
          }
          byPath := byPath[canon[i].path := i];
        }
      }
      for i := 0 to |files|
        modifies this`fileMap
        invariant Translates(files[..i], canon, fileMap)
      {
        assert forall j :: 0 <= j < i ==> files[..i + 1][j] == files[..i][j];
        fileMap := fileMap + [if files[i].path in byPath then byPath[files[i].path] else -1];
      }
      assert files[..|files|] == files;
      return true;
    }

    /** Stores a piece hash of the caller's file, or refuses and changes nothing. */
    method SetHash2(fileIndex: int, piece: int, hash: Hash) returns (ok: bool)
      requires pieceLength > 0
      requires forall i :: 0 <= i < |fileMap| ==> -1 <= fileMap[i] < |canon|
      modifies this`hashes
      ensures ok <==> Takes(canon, fileMap, pieceLength, fileIndex, piece, hash)
      ensures hashes == if ok then old(hashes)[(fileMap[fileIndex], piece) := hash] else old(hashes)
    {
      if fileIndex < 0 || fileIndex >= |fileMap| {
        return false;
      }
      var canonIndex := fileMap[fileIndex];
      if canonIndex < 0 {
        return false;
      }
      var f := canon[canonIndex];
      var filePieces := (f.size + pieceLength - 1) / pieceLength;
      PieceInRange(f.size, pieceLength, piece);
      if piece < 0 || piece >= filePieces {
        return false;
      }
      if hash == seq(32, _ => 0) {
        return false;
      }
      hashes := hashes[(canonIndex, piece) := hash];
      return true;
    }
  }

  /** A piece number is in range exactly when the piece starts inside the file. */
  lemma PieceInRange(size: nat, pieceLength: nat, piece: int)
    requires pieceLength > 0
    ensures piece < (size + pieceLength - 1) / pieceLength <==> piece * pieceLength < size
  {
    var n := (size + pieceLength - 1) / pieceLength;
    assert n * pieceLength <= size + pieceLength - 1 < (n + 1) * pieceLength;
    if piece < n {
      MulMono(piece + 1, n, pieceLength);
    } else {
      MulMono(n, piece, pieceLength);
    }
  }

  lemma MulMono(a: int, b: int, d: nat)
    requires a <= b
    ensures a * d <= b * d
  {
  }

  // ---- the translation under canonicalisation ------------------------------------

  lemma {:induction false} NonPadsHold(files: seq<Entry>, e: Entry)
    ensures e in NonPads(files) <==> e in files && !e.pad
  {
    if files != [] {
      NonPadsHold(files[1..], e);
      assert files == [files[0]] + files[1..];
    }
  }

  lemma {:induction false} NonPadsCount(files: seq<Entry>, e: Entry)
    ensures multiset(NonPads(files))[e] == if e.pad then 0 else multiset(files)[e]
  {
    if files != [] {
      NonPadsCount(files[1..], e);
      assert files == [files[0]] + files[1..];
    }
  }

  lemma CanonHasSameFiles(files: seq<Entry>, canon: seq<Entry>, e: Entry)
    requires Canonicalises(files, canon)
    ensures e in canon && !e.pad <==> e in files && !e.pad
  {
    NonPadsHold(files, e);
    NonPadsHold(canon, e);
    assert e in multiset(NonPads(files)) <==> e in NonPads(files);
    assert e in multiset(NonPads(canon)) <==> e in NonPads(canon);
  }

  lemma {:induction false} TwiceCounts(s: seq<Entry>, i: nat, j: nat)
    requires i < j < |s| && s[i] == s[j]
    ensures multiset(s)[s[i]] >= 2
  {
    assert s == s[..j] + ([s[j]] + s[j + 1..]);
    assert s[..j][i] in multiset(s[..j]);
    assert multiset(s) == multiset(s[..j]) + multiset([s[j]] + s[j + 1..]);
  }

  lemma {:induction false} DistinctCounts(files: seq<Entry>, e: Entry)
    requires DistinctPaths(files)
    ensures multiset(files)[e] <= 1
  {
    if files != [] {
      DistinctCounts(files[1..], e);
      assert files == [files[0]] + files[1..];
      if e == files[0] {
        assert e !in files[1..];
      }
    }
  }

  /** Distinct input paths leave nothing ambiguous after canonicalisation. */
  lemma CanonIsUnambiguous(files: seq<Entry>, canon: seq<Entry>)
    requires DistinctPaths(files) && Canonicalises(files, canon)
    ensures !Ambiguous(canon)
  {
    if i, j :| 0 <= i < j < |canon| && !canon[i].pad && !canon[j].pad && canon[i].path == canon[j].path {
      CanonHasSameFiles(files, canon, canon[i]);
      CanonHasSameFiles(files, canon, canon[j]);
      assert canon[i] in files && canon[j] in files;
      var a :| 0 <= a < |files| && files[a] == canon[i];
      var b :| 0 <= b < |files| && files[b] == canon[j];
      TwiceCounts(canon, i, j);
      NonPadsCount(files, canon[i]);
      NonPadsCount(canon, canon[i]);
      DistinctCounts(files, canon[i]);
      assert false;
    }
  }

  /** Each of the caller's files is translated to its own canonical entry,
      padding to none, and no canonical file is left out. */
  lemma TranslationIsExact(files: seq<Entry>, canon: seq<Entry>, fileMap: seq<int>)
    requires DistinctPaths(files) && Canonicalises(files, canon) && Translates(files, canon, fileMap)
    ensures forall i :: 0 <= i < |files| ==>
      if files[i].pad then fileMap[i] == -1
      else 0 <= fileMap[i] < |canon| && canon[fileMap[i]] == files[i]
    ensures forall i, j :: 0 <= i < j < |files| && !files[i].pad && !files[j].pad ==> fileMap[i] != fileMap[j]
    ensures forall k :: 0 <= k < |canon| && !canon[k].pad ==> k in fileMap
  {
    CanonIsUnambiguous(files, canon);
    forall i | 0 <= i < |files|
      ensures if files[i].pad then fileMap[i] == -1
        else 0 <= fileMap[i] < |canon| && canon[fileMap[i]] == files[i]
    {
      TranslatesOne(files, canon, fileMap, i);
    }
    forall k | 0 <= k < |canon| && !canon[k].pad
      ensures k in fileMap
    {
      CanonHasSameFiles(files, canon, canon[k]);
      var i :| 0 <= i < |files| && files[i] == canon[k];
      assert IsAt(canon, k, files[i].path);
      assert IsAt(canon, fileMap[i], files[i].path);
      assert fileMap[i] == k;
    }
  }

  lemma TranslatesOne(files: seq<Entry>, canon: seq<Entry>, fileMap: seq<int>, i: nat)
    requires DistinctPaths(files) && Canonicalises(files, canon) && Translates(files, canon, fileMap)
    requires i < |files|
    ensures if files[i].pad then fileMap[i] == -1
      else 0 <= fileMap[i] < |canon| && canon[fileMap[i]] == files[i]
  {
    if !files[i].pad {
      CanonHasSameFiles(files, canon, files[i]);
      var k :| 0 <= k < |canon| && canon[k] == files[i];
      assert IsAt(canon, k, files[i].path);
    }
    if fileMap[i] != -1 {
      var e := canon[fileMap[i]];
      CanonHasSameFiles(files, canon, e);
      var a :| 0 <= a < |files| && files[a] == e;
      assert a == i;
    }
  }

  /** With the mapping made by `MapFiles`, `SetHash2` takes exactly the pieces of
      the caller's own files that are not padding, and puts each hash under an
      entry equal to that file, which no other index of the caller reaches. */
  lemma HashGoesToOwnFile(files: seq<Entry>, canon: seq<Entry>, fileMap: seq<int>, pieceLength: nat,
                          i: int, piece: int, hash: Hash)
    requires DistinctPaths(files) && Canonicalises(files, canon) && Translates(files, canon, fileMap)
    ensures Takes(canon, fileMap, pieceLength, i, piece, hash) <==>
      && 0 <= i < |files| && !files[i].pad
      && 0 <= piece && piece * pieceLength < files[i].size
      && !(|hash| == 32 && forall k :: 0 <= k < 32 ==> hash[k] == 0)
    ensures Takes(canon, fileMap, pieceLength, i, piece, hash) ==>
      && canon[fileMap[i]] == files[i]
      && forall j :: 0 <= j < |files| && j != i ==> fileMap[j] != fileMap[i]
  {
    TranslationIsExact(files, canon, fileMap);
    if 0 <= i < |files| && !files[i].pad {
      assert canon[fileMap[i]] == files[i];
      forall j | 0 <= j < |files| && j != i
        ensures fileMap[j] != fileMap[i]
      {
        if files[j].pad {
          assert fileMap[j] == -1;
        } else {
          assert canon[fileMap[j]] == files[j];
        }
      }
    }
  }
}
