/** Which file lists may become a torrent. Sizes are 64-bit integers whose every
    step is checked not to overflow. */
module CreateTorrent {

  import opened Common

  newtype Int64 = x: int | -0x8000_0000_0000_0000 <= x < 0x8000_0000_0000_0000

  const I64_MAX: Int64 := 0x7fff_ffff_ffff_ffff
  const I64_MIN: Int64 := -0x8000_0000_0000_0000
  const MAX_PIECE_SIZE: nat := 128 * 1024 * 1024
  const MIN_PIECE_SIZE: nat := 16 * 1024
  const MAX_PIECE_COUNT: Int64 := 0x3fff_ffff

  const SLASH: Byte := 47
  const BACKSLASH: Byte := 92
  const DOT: Byte := 46

  type Path = seq<Byte>

  datatype FileEntry = FileEntry(path: Path, size: Int64)

  datatype Error =
    | PieceSizeTooLarge | PieceSizeTooSmall | PieceSizeNotPowerOfTwo
    | NegativeSize | TotalOverflows
    | EmptyPath | DuplicatePath | BadComponent | NotInsideRoot | OutsideRoot
    | TooManyPieces

  datatype Result = Accepted | Rejected(error: Error)

  // ---- paths ------------------------------------------------------------------

  predicate Separator(b: Byte, windows: bool) {
    b == SLASH || (windows && b == BACKSLASH)
  }

  function Split(path: Path, windows: bool): (parts: seq<Path>)
    ensures parts != []
  {
    if path == [] then [[]]
    else
      var rest := Split(path[1..], windows);
      if Separator(path[0], windows) then [[]] + rest
      else [[path[0]] + rest[0]] + rest[1..]
  }

  function Separators(path: Path, windows: bool): Path {
    if path == [] then []
    else if Separator(path[0], windows) then [path[0]] + Separators(path[1..], windows)
    else Separators(path[1..], windows)
  }

  function Join(parts: seq<Path>, separators: Path): Path
    requires |parts| == |separators| + 1
  {
    if separators == [] then parts[0]
    else parts[0] + ([separators[0]] + Join(parts[1..], separators[1..]))
  }

  /** Components, with what stands between them: a slash (47), or on Windows a
      backslash (92) as well. */
  ghost predicate IsSplit(path: Path, windows: bool, parts: seq<Path>, separators: Path) {
    && |parts| == |separators| + 1
    && (forall i, k :: 0 <= i < |parts| && 0 <= k < |parts[i]| ==> parts[i][k] != 47 && (windows ==> parts[i][k] != 92))
    && (forall i :: 0 <= i < |separators| ==> separators[i] == 47 || (windows && separators[i] == 92))
    && Join(parts, separators) == path
  }

  /** A path without components that are empty, `.` or `..`. */
  ghost predicate PlainComponents(path: Path, windows: bool) {
    forall parts, separators :: IsSplit(path, windows, parts, separators) ==>
      forall k :: 0 <= k < |parts| ==> parts[k] != [] && parts[k] != [46] && parts[k] != [46, 46]
  }

  lemma {:induction false} SplitSplits(path: Path, windows: bool)
    ensures IsSplit(path, windows, Split(path, windows), Separators(path, windows))
  {
    if path != [] {
      SplitSplits(path[1..], windows);
      var rest, seps := Split(path[1..], windows), Separators(path[1..], windows);
      assert path == [path[0]] + path[1..];
      if Separator(path[0], windows) {
        assert ([[]] + rest)[1..] == rest && ([path[0]] + seps)[1..] == seps;
      } else {
        var parts := [[path[0]] + rest[0]] + rest[1..];
        assert parts[1..] == rest[1..];
        if seps != [] {
          Assoc([path[0]], rest[0], [seps[0]] + Join(rest[1..], seps[1..]));
        }
      }
    }
  }

  lemma {:induction false} SplitFront(part: Path, path: Path, windows: bool)
    requires NoSeparator(part, windows)
    ensures Split(part + path, windows) == [part + Split(path, windows)[0]] + Split(path, windows)[1..]
    ensures Separators(part + path, windows) == Separators(path, windows)
  {
    if part == [] {
      assert part + path == path;
      assert part + Split(path, windows)[0] == Split(path, windows)[0];
    } else {
      assert (part + path)[1..] == part[1..] + path;
      SplitFront(part[1..], path, windows);
      Assoc([part[0]], part[1..], Split(path, windows)[0]);
      assert [part[0]] + part[1..] == part;
    }
  }

  lemma {:induction false} SplitUnique(path: Path, windows: bool, parts: seq<Path>, separators: Path)
    requires IsSplit(path, windows, parts, separators)
    ensures parts == Split(path, windows) && separators == Separators(path, windows)
    decreases |parts|
  {
    if separators == [] {
      SplitFront(parts[0], [], windows);
      assert parts[0] + [] == parts[0];
    } else {
      var rest := Join(parts[1..], separators[1..]);
      SplitUnique(rest, windows, parts[1..], separators[1..]);
      assert ([separators[0]] + rest)[1..] == rest;
      SplitFront(parts[0], [separators[0]] + rest, windows);
      assert parts[0] + [] == parts[0];
    }
  }

  /** `Split` is the one way to take a path apart at its separators. */
  lemma SplitIff(path: Path, windows: bool, parts: seq<Path>, separators: Path)
    ensures IsSplit(path, windows, parts, separators) <==>
            parts == Split(path, windows) && separators == Separators(path, windows)
  {
    SplitSplits(path, windows);
    if IsSplit(path, windows, parts, separators) {
      SplitUnique(path, windows, parts, separators);
    }
  }

  predicate BadPart(part: Path) {
    part == [] || part == [DOT] || part == [DOT, DOT]
  }

  predicate CleanPath(path: Path, windows: bool) {
    forall i :: 0 <= i < |Split(path, windows)| ==> !BadPart(Split(path, windows)[i])
  }

  lemma CleanIff(path: Path, windows: bool)
    ensures CleanPath(path, windows) <==> PlainComponents(path, windows)
  {
    var parts, seps := Split(path, windows), Separators(path, windows);
    SplitSplits(path, windows);
    if CleanPath(path, windows) {
      forall ps, ss | IsSplit(path, windows, ps, ss)
        ensures forall k :: 0 <= k < |ps| ==> ps[k] != [] && ps[k] != [46] && ps[k] != [46, 46]
      {
        SplitUnique(path, windows, ps, ss);
      }
    } else {
      var k :| 0 <= k < |parts| && BadPart(parts[k]);
      assert IsSplit(path, windows, parts, seps);
    }
  }

  function Root(path: Path, windows: bool): Path {
    Split(path, windows)[0]
  }

  predicate InsideRoot(path: Path, windows: bool) {
    |Split(path, windows)| > 1
  }

  predicate NoSeparator(part: Path, windows: bool) {
    forall i :: 0 <= i < |part| ==> !Separator(part[i], windows)
  }

  /** `path` is `root`, a separator, and something below it. */
  ghost predicate Below(path: Path, root: Path, windows: bool) {
    && NoSeparator(root, windows)
    && |root| < |path| && path[..|root|] == root && Separator(path[|root|], windows)
  }

  /** The first of several components is the text before the first separator. */
  lemma RootIsPrefix(path: Path, root: Path, windows: bool)
    ensures InsideRoot(path, windows) && Root(path, windows) == root <==> Below(path, root, windows)
  {
    if Below(path, root, windows) {
      var rest := path[|root|..];
      assert path == root + rest;
      SplitFront(root, rest, windows);
      assert root + [] == root;
    }
    if InsideRoot(path, windows) && Root(path, windows) == root {
      SplitSplits(path, windows);
      var parts, seps := Split(path, windows), Separators(path, windows);
      assert path == root + ([seps[0]] + Join(parts[1..], seps[1..]));
      assert path[..|root|] == root && path[|root|] == seps[0];
    }
  }

  ghost predicate DistinctPaths(files: seq<FileEntry>) {
    forall i, j :: 0 <= i < j < |files| ==> files[i].path != files[j].path
  }

  ghost predicate AllBelow(files: seq<FileEntry>, root: Path, windows: bool) {
    forall i :: 0 <= i < |files| ==> Below(files[i].path, root, windows)
  }

  ghost predicate OneRoot(files: seq<FileEntry>, windows: bool) {
    exists root :: AllBelow(files, root, windows)
  }

  /** Distinct clean paths; several files all lie strictly under one root. */
  ghost predicate PathsAdmissible(files: seq<FileEntry>, windows: bool) {
    && DistinctPaths(files)
    && (forall i :: 0 <= i < |files| ==> CleanPath(files[i].path, windows))
    && (|files| > 1 ==> OneRoot(files, windows))
  }

  // ---- sizes ------------------------------------------------------------------

  function Total(files: seq<FileEntry>): int {
    if files == [] then 0 else Total(files[..|files| - 1]) + files[|files| - 1].size as int
  }

  ghost predicate NonNegative(files: seq<FileEntry>) {
    forall i :: 0 <= i < |files| ==> files[i].size >= 0
  }

  ghost predicate SizesAdmissible(files: seq<FileEntry>) {
    NonNegative(files) && Total(files) <= I64_MAX as int
  }

  lemma {:induction false} TotalGrows(files: seq<FileEntry>, i: nat)
    requires i <= |files| && NonNegative(files)
    ensures 0 <= Total(files[..i]) <= Total(files)
    decreases |files|
  {
    if i == |files| {
      assert files[..i] == files;
      if files != [] {
        TotalGrows(files[..i - 1], i - 1);
      }
    } else {
      var front := files[..|files| - 1];
      TotalGrows(front, i);
      assert front[..i] == files[..i];
    }
  }

  /** One piece of slack for the last partial piece and one for each file. */
  predicate WithinBudget(total: int, fileCount: nat, pieceSize: nat)
    requires pieceSize > 0
  {
    total / pieceSize + (if total % pieceSize != 0 then 1 else 0) + fileCount <= MAX_PIECE_COUNT as int
  }

  predicate PowerOfTwo(n: nat) {
    n == 1 || (n > 0 && n % 2 == 0 && PowerOfTwo(n / 2))
  }

  predicate PieceSizeAdmissible(pieceSize: nat) {
    pieceSize == 0 || (MIN_PIECE_SIZE <= pieceSize <= MAX_PIECE_SIZE && PowerOfTwo(pieceSize))
  }

  ghost predicate Admissible(files: seq<FileEntry>, pieceSize: nat, windows: bool) {
    && PieceSizeAdmissible(pieceSize)
    && SizesAdmissible(files)
    && PathsAdmissible(files, windows)
    && (pieceSize != 0 ==> WithinBudget(Total(files), |files|, pieceSize))
  }

  function SaturatingSub(a: Int64, b: Int64): (r: Int64)
    ensures r as int == Clamp(a as int - b as int)
  {
    if b > 0 && a < I64_MIN + b then I64_MIN
    else if b < 0 && a > I64_MAX + b then I64_MAX
    else a - b
  }

  function Clamp(x: int): int {
    if x < I64_MIN as int then I64_MIN as int else if x > I64_MAX as int then I64_MAX as int else x
  }

  // ---- the validation loop ------------------------------------------------------

  ghost predicate Good(files: seq<FileEntry>, n: nat, windows: bool)
    requires n <= |files|
  {
    && NonNegative(files[..n]) && Total(files[..n]) <= I64_MAX as int
    && DistinctPaths(files[..n])
    && (forall i :: 0 <= i < n ==> CleanPath(files[i].path, windows))
    && (|files| > 1 ==> forall i :: 0 <= i < n ==>
          InsideRoot(files[i].path, windows) && Root(files[i].path, windows) == Root(files[0].path, windows))
  }

  lemma RootsAgree(files: seq<FileEntry>, windows: bool)
    requires |files| > 1
    ensures OneRoot(files, windows) <==> forall i :: 0 <= i < |files| ==>
      InsideRoot(files[i].path, windows) && Root(files[i].path, windows) == Root(files[0].path, windows)
  {
    if OneRoot(files, windows) {
      var root :| AllBelow(files, root, windows);
      forall i | 0 <= i < |files|
        ensures InsideRoot(files[i].path, windows) && Root(files[i].path, windows) == root
      {
        RootIsPrefix(files[i].path, root, windows);
      }
    }
    if forall i :: 0 <= i < |files| ==>
        InsideRoot(files[i].path, windows) && Root(files[i].path, windows) == Root(files[0].path, windows) {
      forall i | 0 <= i < |files|
        ensures Below(files[i].path, Root(files[0].path, windows), windows)
      {
        RootIsPrefix(files[i].path, Root(files[0].path, windows), windows);
      }
      assert AllBelow(files, Root(files[0].path, windows), windows);
    }
  }

  lemma GoodIsAdmissible(files: seq<FileEntry>, windows: bool)
    ensures Good(files, |files|, windows) <==> SizesAdmissible(files) && PathsAdmissible(files, windows)
  {
    assert files[..|files|] == files;
    if |files| > 1 {
      RootsAgree(files, windows);
    }
  }

  lemma GoodPrefix(files: seq<FileEntry>, n: nat, windows: bool)
    requires n <= |files|
    ensures Good(files, |files|, windows) ==> Good(files, n, windows)
  {
    assert files[..|files|] == files;
    assert forall i :: 0 <= i < n ==> files[..n][i] == files[i];
    if NonNegative(files) {
      TotalGrows(files, n);
    }
  }

  /** What the loop checks of one more file. */
  ghost predicate NextOk(files: seq<FileEntry>, i: nat, windows: bool)
    requires i < |files|
  {
    && files[i].size >= 0 && Total(files[..i]) + files[i].size as int <= I64_MAX as int
    && (forall j :: 0 <= j < i ==> files[j].path != files[i].path)
    && CleanPath(files[i].path, windows)
    && (|files| > 1 ==>
          InsideRoot(files[i].path, windows) && Root(files[i].path, windows) == Root(files[0].path, windows))
  }

  lemma GoodNext(files: seq<FileEntry>, i: nat, windows: bool)
    requires i < |files| && Good(files, i, windows)
    ensures Good(files, i + 1, windows) <==> NextOk(files, i, windows)
    ensures Total(files[..i + 1]) == Total(files[..i]) + files[i].size as int
  {
    var longer := files[..i + 1];
    assert longer[..i] == files[..i] && longer[i] == files[i];
    assert forall j :: 0 <= j < i ==> longer[j] == files[..i][j] == files[j];
  }

  ghost predicate SizeOk(files: seq<FileEntry>, i: nat)
    requires i < |files|
  {
    files[i].size >= 0 && Total(files[..i]) + files[i].size as int <= I64_MAX as int
  }

  ghost predicate Duplicates(files: seq<FileEntry>, i: nat)
    requires i < |files|
  {
    exists j :: 0 <= j < i && files[j].path == files[i].path
  }

  /** What is wrong with file `i`, by the order of the tests: each assumes that
      those before it passed. */
  ghost predicate Defect(files: seq<FileEntry>, i: nat, e: Error, windows: bool)
    requires i < |files|
  {
    var path := files[i].path;
    match e
    case NegativeSize => files[i].size < 0
    case TotalOverflows => files[i].size >= 0 && !SizeOk(files, i)
    case EmptyPath => SizeOk(files, i) && path == []
    case DuplicatePath => SizeOk(files, i) && path != [] && Duplicates(files, i)
    case BadComponent =>
      SizeOk(files, i) && path != [] && !Duplicates(files, i) && !CleanPath(path, windows)
    case NotInsideRoot =>
      && SizeOk(files, i) && !Duplicates(files, i) && CleanPath(path, windows)
      && |files| > 1 && !InsideRoot(path, windows)
    case OutsideRoot =>
      && SizeOk(files, i) && !Duplicates(files, i) && CleanPath(path, windows)
      && |files| > 1 && InsideRoot(path, windows) && Root(path, windows) != Root(files[0].path, windows)
    case _ => false
  }

  /** Nothing is wrong before file `i`, and this is wrong with it. */
  ghost predicate FirstDefect(files: seq<FileEntry>, i: nat, e: Error, windows: bool) {
    i < |files| && Good(files, i, windows) && Defect(files, i, e, windows)
  }

  lemma Refuse(files: seq<FileEntry>, i: nat, e: Error, windows: bool)
    requires FirstDefect(files, i, e, windows)
    ensures !Good(files, |files|, windows)
    ensures exists k: nat :: FirstDefect(files, k, e, windows)
  {
    GoodNext(files, i, windows);
    GoodPrefix(files, i + 1, windows);
    if files[i].path == [] {
      assert BadPart(Split(files[i].path, windows)[0]);
    }
    assert !NextOk(files, i, windows);
  }

  /** A list is refused for a reason that holds, and for the first one met. */
  ghost predicate Reason(files: seq<FileEntry>, pieceSize: nat, windows: bool, e: Error) {
    match e
    case PieceSizeTooLarge => pieceSize > MAX_PIECE_SIZE
    case PieceSizeTooSmall => 0 < pieceSize < MIN_PIECE_SIZE
    case PieceSizeNotPowerOfTwo => MIN_PIECE_SIZE <= pieceSize <= MAX_PIECE_SIZE && !PowerOfTwo(pieceSize)
    case TooManyPieces =>
      && PieceSizeAdmissible(pieceSize) && pieceSize > 0 && Good(files, |files|, windows)
      && !WithinBudget(Total(files), |files|, pieceSize)
    case _ => PieceSizeAdmissible(pieceSize) && exists i: nat :: FirstDefect(files, i, e, windows)
  }

  method New(files: seq<FileEntry>, pieceSize: nat, windows: bool) returns (r: Result)
    ensures r.Accepted? <==> Admissible(files, pieceSize, windows)
    ensures r.Rejected? ==> Reason(files, pieceSize, windows, r.error)
    ensures r.Accepted? ==> forall i :: 0 <= i < |files| ==> PlainComponents(files[i].path, windows)
    ensures r == Rejected(BadComponent) ==> exists i :: 0 <= i < |files| && !PlainComponents(files[i].path, windows)
    ensures r.Accepted? ==> NonNegative(files)
    ensures r.Accepted? && pieceSize != 0 ==> PaddedPieces(files, pieceSize) <= MAX_PIECE_COUNT as int
  {
    if pieceSize != 0 && pieceSize > MAX_PIECE_SIZE {
      return Rejected(PieceSizeTooLarge);
    }
    if pieceSize != 0 && pieceSize < MIN_PIECE_SIZE {
      return Rejected(PieceSizeTooSmall);
    }
    if pieceSize != 0 && !PowerOfTwo(pieceSize) {
      return Rejected(PieceSizeNotPowerOfTwo);
    }
    var totalSize: Int64;
    GoodIsAdmissible(files, windows);
    r, totalSize := Validate(files, windows);
    if r.Rejected? {
      if r.error == BadComponent {
        ghost var i: nat :| FirstDefect(files, i, BadComponent, windows);
        CleanIff(files[i].path, windows);
      }
      return;
    }
    if pieceSize != 0 {
      var ok := FitsBudget(totalSize, |files|, pieceSize);
      if !ok {
        return Rejected(TooManyPieces);
      }
      PieceCountBounded(files, pieceSize);
    }
    forall i | 0 <= i < |files|
      ensures PlainComponents(files[i].path, windows)
    {
      CleanIff(files[i].path, windows);
    }
    return Accepted;
  }

  method FitsBudget(totalSize: Int64, fileCount: nat, pieceSize: nat) returns (ok: bool)
    requires totalSize >= 0 && 0 < pieceSize <= MAX_PIECE_SIZE
    ensures ok <==> WithinBudget(totalSize as int, fileCount, pieceSize)
  {
    var ps := pieceSize as Int64;
    var partial: Int64 := if totalSize % ps != 0 then 1 else 0;
    var nfiles: Int64 := if fileCount <= I64_MAX as int then fileCount as Int64 else I64_MAX;
    var budget := SaturatingSub(SaturatingSub(MAX_PIECE_COUNT, partial), nfiles);
    ok := totalSize / ps <= budget;
  }

  method Validate(files: seq<FileEntry>, windows: bool) returns (r: Result, totalSize: Int64)
    ensures r.Accepted? <==> Good(files, |files|, windows)
    ensures r.Rejected? ==> exists i: nat :: FirstDefect(files, i, r.error, windows)
    ensures r.Accepted? ==> totalSize as int == Total(files) && totalSize >= 0
  {
    totalSize := 0;
    var seenPaths: set<Path> := {};
    var commonRoot: seq<Path> := [];     // empty, or the one root
    for i := 0 to |files|
      invariant Good(files, i, windows)
      invariant totalSize as int == Total(files[..i]) && totalSize >= 0
      invariant forall p :: p in seenPaths <==> exists j :: 0 <= j < i && files[j].path == p
      invariant |files| > 1 ==> commonRoot == if i == 0 then [] else [Root(files[0].path, windows)]
    {
      var f := files[i];
      if f.size < 0 {
        Refuse(files, i, NegativeSize, windows);
        return Rejected(NegativeSize), 0;
      }
      if f.size > I64_MAX - totalSize {
        Refuse(files, i, TotalOverflows, windows);
        return Rejected(TotalOverflows), 0;
      }
      totalSize := totalSize + f.size;
      if f.path == [] {
        Refuse(files, i, EmptyPath, windows);
        return Rejected(EmptyPath), 0;
      }
      if f.path in seenPaths {
        Refuse(files, i, DuplicatePath, windows);
        return Rejected(DuplicatePath), 0;
      }
      seenPaths := seenPaths + {f.path};
      if !CleanPath(f.path, windows) {
        Refuse(files, i, BadComponent, windows);
        return Rejected(BadComponent), 0;
      }
      if |files| > 1 {
        var components := Split(f.path, windows);
        if |components| == 1 {
          Refuse(files, i, NotInsideRoot, windows);
          return Rejected(NotInsideRoot), 0;
        }
        if commonRoot == [] {
          commonRoot := [components[0]];
        } else if commonRoot[0] != components[0] {
          Refuse(files, i, OutsideRoot, windows);
          return Rejected(OutsideRoot), 0;
        }
      }
      GoodNext(files, i, windows);
    }
    assert files[..|files|] == files;
    return Accepted, totalSize;
  }

  // ---- the C++ layer ------------------------------------------------------------

  /** libtorrent's own size limits. */
  ghost predicate WithinLimits(files: seq<FileEntry>, maxFileSize: Int64, maxFileOffset: Int64) {
    && (forall i :: 0 <= i < |files| ==> files[i].size <= maxFileSize)
    && Total(files) <= maxFileOffset as int
  }

  ghost predicate ShimAdmits(files: seq<FileEntry>, pieceSize: int, v1Only: bool, v2Only: bool,
                             maxFileSize: Int64, maxFileOffset: Int64) {
    && 0 <= pieceSize <= MAX_PIECE_SIZE && !(v1Only && v2Only)
    && NonNegative(files) && WithinLimits(files, maxFileSize, maxFileOffset)
    && (pieceSize > 0 ==> WithinBudget(Total(files), |files|, pieceSize))
  }

  /** The shim repeats the size checks against libtorrent's own limits, which
      are parameters here, and the same budget. */
  method CtCreateTorrentNew(files: seq<FileEntry>, pieceSize: int, v1Only: bool, v2Only: bool,
                            maxFileSize: Int64, maxFileOffset: Int64) returns (ok: bool)
    requires 0 < maxFileSize <= maxFileOffset
    requires |files| <= I64_MAX as int
    ensures ok <==> ShimAdmits(files, pieceSize, v1Only, v2Only, maxFileSize, maxFileOffset)
  {
    if pieceSize < 0 || pieceSize > MAX_PIECE_SIZE {
      return false;
    }
    if v1Only && v2Only {
      return false;
    }
    var totalSize: Int64 := 0;
    for i := 0 to |files|
      invariant NonNegative(files[..i]) && 0 <= totalSize <= maxFileOffset
      invariant forall j :: 0 <= j < i ==> files[j].size <= maxFileSize
      invariant totalSize as int == Total(files[..i])
    {
      var f := files[i];
      assert files[..i + 1][..i] == files[..i] && files[..i + 1][i] == f;
      if f.size < 0 {
        return false;
      }
      if f.size > maxFileSize || totalSize > maxFileOffset - f.size {
        if NonNegative(files) {
          TotalGrows(files, i + 1);
        }
        return false;
      }
      totalSize := totalSize + f.size;
    }
    assert files[..|files|] == files;
    if pieceSize > 0 {
      var ps := pieceSize as Int64;
      var partial: Int64 := if totalSize % ps != 0 then 1 else 0;
      var budget := MAX_PIECE_COUNT - partial - |files| as Int64;
      if totalSize / ps > budget {
        return false;
      }
    }
    return true;
  }

  // ---- the bound ------------------------------------------------------------------

  function CeilDiv(a: nat, b: nat): nat
    requires b > 0
  {
    a / b + (if a % b != 0 then 1 else 0)
  }

  /** Pieces of the list once every file is padded to a piece boundary. */
  function PaddedPieces(files: seq<FileEntry>, pieceSize: nat): nat
    requires pieceSize > 0 && NonNegative(files)
  {
    if files == [] then 0
    else PaddedPieces(files[..|files| - 1], pieceSize) + CeilDiv(files[|files| - 1].size as int, pieceSize)
  }

  lemma MulCancels(a: int, b: int, d: nat)
    requires a * d < b * d
    ensures a < b
  {
  }

  lemma DivBounds(x: nat, d: nat)
    requires d > 0
    ensures (x / d) * d <= x < (x / d + 1) * d
  {
  }

  lemma Distributes(x: int, y: int, d: int)
    ensures (x + y) * d == x * d + y * d
  {
  }

  lemma DivAdds(a: nat, b: nat, d: nat)
    requires d > 0
    ensures a / d + b / d <= (a + b) / d
  {
    var p, q, r := a / d, b / d, (a + b) / d;
    assert p * d <= a && q * d <= b && a + b < (r + 1) * d by {
      DivBounds(a, d);
      DivBounds(b, d);
      DivBounds(a + b, d);
    }
    Distributes(p, q, d);
    MulCancels(p + q, r + 1, d);
  }

  lemma {:induction false} PaddedAtMost(files: seq<FileEntry>, pieceSize: nat)
    requires pieceSize > 0 && NonNegative(files)
    ensures Total(files) >= 0
    ensures PaddedPieces(files, pieceSize) <= Total(files) / pieceSize + |files|
  {
    if files != [] {
      var front := files[..|files| - 1];
      PaddedAtMost(front, pieceSize);
      DivAdds(Total(front), files[|files| - 1].size as int, pieceSize);
    }
  }

  /** A list within the budget never exceeds the piece count libtorrent can represent,
      however its files are padded. */
  lemma PieceCountBounded(files: seq<FileEntry>, pieceSize: nat)
    requires NonNegative(files) && Total(files) >= 0
    requires pieceSize > 0 && WithinBudget(Total(files), |files|, pieceSize)
    ensures PaddedPieces(files, pieceSize) <= MAX_PIECE_COUNT as int
  {
    PaddedAtMost(files, pieceSize);
  }

  /** A list that `New` admits is refused by `CtCreateTorrentNew` only for
      libtorrent's own size limits or for contradictory mode flags. */
  lemma ShimAgrees(files: seq<FileEntry>, pieceSize: nat, windows: bool, v1Only: bool, v2Only: bool,
                   maxFileSize: Int64, maxFileOffset: Int64)
    ensures Admissible(files, pieceSize, windows) ==>
      (ShimAdmits(files, pieceSize, v1Only, v2Only, maxFileSize, maxFileOffset) <==>
       !(v1Only && v2Only) && WithinLimits(files, maxFileSize, maxFileOffset))
    ensures Admissible(files, pieceSize, windows) && pieceSize > 0 ==> |files| <= I64_MAX as int
  {
    if Admissible(files, pieceSize, windows) && pieceSize > 0 {
      PaddedAtMost(files, pieceSize);
    }
  }

  // ---- what is admitted, spelled out --------------------------------------------

  function Pow2(k: nat): nat {
    if k == 0 then 1 else 2 * Pow2(k - 1)
  }

  lemma {:induction false} PowersOfTwo(n: nat)
    ensures PowerOfTwo(n) <==> exists k: nat :: n == Pow2(k)
  {
    if n > 1 && n % 2 == 0 {
      PowersOfTwo(n / 2);
      if k: nat :| n / 2 == Pow2(k) {
        assert n == Pow2(k + 1);
      }
    }
    if n == 1 {
      assert n == Pow2(0);
    }
    if k: nat :| n == Pow2(k) {
      Pow2Positive(k);
      if k > 0 {
        assert n / 2 == Pow2(k - 1);
      }
    }
  }

  lemma {:induction false} Pow2Positive(k: nat)
    ensures Pow2(k) > 0
  {
    if k > 0 {
      Pow2Positive(k - 1);
    }
  }

  lemma {:induction false} Pow2Grows(j: nat, k: nat)
    requires j < k
    ensures Pow2(j) < Pow2(k)
    decreases k
  {
    Pow2Positive(k - 1);
    if j < k - 1 {
      Pow2Grows(j, k - 1);
    }
  }

  lemma PieceSizes()
    ensures Pow2(14) == 16 * 1024 && Pow2(27) == 128 * 1024 * 1024
  {
    assert Pow2(7) == 128 && Pow2(14) == 128 * Pow2(7) && Pow2(20) == 64 * Pow2(14) && Pow2(27) == 128 * Pow2(20);
  }

  /** The piece size is left to libtorrent, or is a power of two from 16 KiB to
      128 MiB. */
  lemma PieceSizeIff(pieceSize: nat)
    ensures PieceSizeAdmissible(pieceSize) <==>
      pieceSize == 0 || exists k: nat :: 14 <= k <= 27 && pieceSize == Pow2(k)
  {
    PowersOfTwo(pieceSize);
    forall k: nat | pieceSize == Pow2(k)
      ensures MIN_PIECE_SIZE <= pieceSize <= MAX_PIECE_SIZE <==> 14 <= k <= 27
    {
      PowerInRange(k);
    }
  }

  lemma PowerInRange(k: nat)
    ensures MIN_PIECE_SIZE <= Pow2(k) <= MAX_PIECE_SIZE <==> 14 <= k <= 27
  {
    PieceSizes();
    if k < 14 {
      Pow2Grows(k, 14);
    } else if k > 14 {
      Pow2Grows(14, k);
    }
    if k < 27 {
      Pow2Grows(k, 27);
    } else if k > 27 {
      Pow2Grows(27, k);
    }
  }

  lemma {:induction false} TotalJoins(a: seq<FileEntry>, b: seq<FileEntry>)
    ensures Total(a + b) == Total(a) + Total(b)
    ensures |b| == 1 ==> Total(b) == b[0].size as int
    decreases |b|
  {
    if b == [] {
      assert a + b == a;
    } else {
      assert (a + b)[..|a + b| - 1] == a + b[..|b| - 1];
      TotalJoins(a, b[..|b| - 1]);
      assert |b| == 1 ==> b[..0] == [];
    }
  }

  /** Rounding up: the least number of pieces that hold the bytes. */
  lemma CeilDivIs(a: nat, b: nat, n: int)
    requires b > 0
    ensures n == CeilDiv(a, b) <==> (n - 1) * b < a <= n * b
  {
    var c := CeilDiv(a, b);
    DivBounds(a, b);
    Distributes(a / b, 1, b);
    Distributes(c, -1, b);
    assert (c - 1) * b < a <= c * b;
    if (n - 1) * b < a <= n * b {
      MulCancels(n - 1, c, b);
      MulCancels(c - 1, n, b);
    }
  }

  lemma {:induction false} PaddedJoins(a: seq<FileEntry>, f: FileEntry, pieceSize: nat)
    requires pieceSize > 0 && NonNegative(a + [f])
    ensures NonNegative(a) && f.size >= 0
    ensures PaddedPieces(a + [f], pieceSize) == PaddedPieces(a, pieceSize) + CeilDiv(f.size as int, pieceSize)
  {
    assert (a + [f])[..|a|] == a && (a + [f])[|a|] == f;
    assert forall i :: 0 <= i < |a| ==> (a + [f])[i] == a[i];
  }

  /** The list has one root: every path has it as first of several components. */
  ghost predicate SharesRoot(files: seq<FileEntry>, root: Path, windows: bool) {
    forall i :: 0 <= i < |files| ==> StartsWith(files[i].path, root, windows)
  }

  ghost predicate StartsWith(path: Path, root: Path, windows: bool) {
    exists parts, separators :: IsSplit(path, windows, parts, separators) && |parts| > 1 && parts[0] == root
  }

  lemma StartsWithIff(path: Path, root: Path, windows: bool)
    ensures StartsWith(path, root, windows) <==> Below(path, root, windows)
  {
    RootIsPrefix(path, root, windows);
    SplitSplits(path, windows);
    if parts, seps :| IsSplit(path, windows, parts, seps) && |parts| > 1 && parts[0] == root {
      SplitUnique(path, windows, parts, seps);
    }
    if Below(path, root, windows) {
      assert IsSplit(path, windows, Split(path, windows), Separators(path, windows));
    }
  }

  lemma OneRootIff(files: seq<FileEntry>, windows: bool)
    ensures OneRoot(files, windows) <==> exists root :: SharesRoot(files, root, windows)
  {
    forall root
      ensures SharesRoot(files, root, windows) <==> AllBelow(files, root, windows)
    {
      forall i | 0 <= i < |files|
        ensures StartsWith(files[i].path, root, windows) <==> Below(files[i].path, root, windows)
      {
        StartsWithIff(files[i].path, root, windows);
      }
    }
    if root :| AllBelow(files, root, windows) {
      assert SharesRoot(files, root, windows);
    }
    if root :| SharesRoot(files, root, windows) {
      assert AllBelow(files, root, windows);
    }
  }

  ghost predicate AllPlain(files: seq<FileEntry>, windows: bool) {
    forall i :: 0 <= i < |files| ==> PlainComponents(files[i].path, windows)
  }

  lemma AllPlainIff(files: seq<FileEntry>, windows: bool)
    ensures AllPlain(files, windows) <==> forall i :: 0 <= i < |files| ==> CleanPath(files[i].path, windows)
  {
    forall i | 0 <= i < |files|
      ensures CleanPath(files[i].path, windows) <==> PlainComponents(files[i].path, windows)
    {
      CleanIff(files[i].path, windows);
    }
  }

  ghost predicate HasOneRoot(files: seq<FileEntry>, windows: bool) {
    exists root :: SharesRoot(files, root, windows)
  }

  lemma BudgetIff(total: nat, fileCount: nat, pieceSize: nat)
    requires pieceSize > 0
    ensures WithinBudget(total, fileCount, pieceSize) <==> CeilDiv(total, pieceSize) + fileCount <= 0x3fff_ffff
  {
  }

  /** What `New` accepts, with every limit written out. */
  lemma AdmissibleIff(files: seq<FileEntry>, pieceSize: nat, windows: bool)
    ensures Admissible(files, pieceSize, windows) <==>
      && (pieceSize == 0 || exists k: nat :: 14 <= k <= 27 && pieceSize == Pow2(k))
      && (forall i :: 0 <= i < |files| ==> files[i].size >= 0)
      && 0 <= Total(files) <= 0x7fff_ffff_ffff_ffff
      && (forall i, j :: 0 <= i < j < |files| ==> files[i].path != files[j].path)
      && AllPlain(files, windows)
      && (|files| > 1 ==> HasOneRoot(files, windows))
      && (pieceSize > 0 ==> CeilDiv(Total(files), pieceSize) + |files| <= 0x3fff_ffff)
  {
    PieceSizeIff(pieceSize);
    AllPlainIff(files, windows);
    OneRootIff(files, windows);
    if NonNegative(files) {
      TotalGrows(files, |files|);
      if pieceSize > 0 {
        BudgetIff(Total(files), |files|, pieceSize);
      }
    }
  }
}
