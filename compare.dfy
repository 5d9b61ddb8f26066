/** The file tree the comparator reads, and `isExactMatch`
    (src/main.cpp:137-151). */
module Compare {
  import opened Results
  import opened Paths
  import opened Messages

  /** What a path names. `Unopenable` exists but cannot be opened for
      reading; querying the status of a `StatusError` path throws a
      `filesystem_error` with the given text. */
  datatype Node = Dir | File(bytes: seq<bv8>) | Unopenable | StatusError(what: Message)

  type FileTree = map<Path, Node>

  /** The throwing form of `is_directory`: a missing path is not a
      directory; a failing status query throws. */
  function IsDirectory(fs: FileTree, p: Path): Result<bool, Message> {
    if p !in fs then Ok(false)
    else match fs[p]
      case StatusError(what) => Err(what)
      case Dir => Ok(true)
      case _ => Ok(false)
  }

  /** The throwing form of `exists`. */
  function Exists(fs: FileTree, p: Path): Result<bool, Message> {
    if p !in fs then Ok(false)
    else match fs[p]
      case StatusError(what) => Err(what)
      case _ => Ok(true)
  }

  /** `ifstream(p, ios::binary)`: succeeds only on a readable regular file
      (opening a directory fails on the Windows build). */
  function Open(fs: FileTree, p: Path): Option<seq<bv8>> {
    if p in fs && fs[p].File? then Some(fs[p].bytes) else None
  }

  /** The byte an exhausted `istreambuf_iterator` yields when it is
      dereferenced with the GNU C++ library: `char(traits::eof())`. */
  const EofByte: bv8 := 0xFF

  /** How the three-argument `std::equal` over two `istreambuf_iterator`s
      ends. `Undefined`: the second iterator was advanced after its stream
      buffer had been dropped, a call through a null pointer. */
  datatype Comparison = Equal | Unequal | Undefined

  /** The two files agree at every position inside both of them. */
  predicate AgreeOnBoth(a: seq<bv8>, b: seq<bv8>) {
    forall i :: 0 <= i < |a| && i < |b| ==> a[i] == b[i]
  }

  /** `std::equal(first1, last1, first2)` walks the first file only. With
      the GNU C++ library, dereferencing the second iterator past its end
      yields 0xFF and sets its stream buffer to null; the following `++`
      calls through that null pointer. So a longer first file that starts
      with the second is unequal when its next byte is not 0xFF and runs
      into undefined behaviour when it is. The lengths are never compared. */
  function Compared(a: seq<bv8>, b: seq<bv8>): Comparison {
    if !AgreeOnBoth(a, b) then Unequal
    else if |a| <= |b| then Equal
    else if a[|b|] != EofByte then Unequal
    else Undefined
  }

  /** What `isExactMatch(first, second)` returns or throws: the first file
      that cannot be opened is named in the error, and the comparison runs
      exactly when both open. */
  function ExactMatch(fs: FileTree, first: Path, second: Path): (r: Result<Comparison, Message>)
    ensures Open(fs, first).None? ==> r == Err(OpenErrorMsg(first))
    ensures Open(fs, first).Some? && Open(fs, second).None? ==> r == Err(OpenErrorMsg(second))
    ensures r.Ok? <==> Open(fs, first).Some? && Open(fs, second).Some?
  {
    match Open(fs, first)
    case None => Err(OpenErrorMsg(first))
    case Some(a) =>
      match Open(fs, second)
      case None => Err(OpenErrorMsg(second))
      case Some(b) => Ok(Compared(a, b))
  }

  /** isExactMatch (src/main.cpp:137-151), stepping both streams together. */
  method IsExactMatch(fs: FileTree, first: Path, second: Path) returns (r: Result<Comparison, Message>)
    ensures r == ExactMatch(fs, first, second)
  {
    var file1 := Open(fs, first);
    if file1.None? {
      return Err(OpenErrorMsg(first));
    }
    var file2 := Open(fs, second);
    if file2.None? {
      return Err(OpenErrorMsg(second));
    }
    var a, b := file1.value, file2.value;
    var i := 0;
    while i < |a|
      invariant 0 <= i <= |a| && i <= |b|
      invariant forall j :: 0 <= j < i ==> a[j] == b[j]
    {
      // `*first2`: past the end of the second file this yields 0xFF and
      // drops the iterator's stream buffer.
      var c := if i < |b| then b[i] else EofByte;
      if a[i] != c {
        return Ok(Unequal);
      }
      if i == |b| {
        // `++first2` through the dropped stream buffer.
        return Ok(Undefined);
      }
      i := i + 1;
    }
    return Ok(Equal);
  }

  /** When the first file is no longer than the second, the comparison
      never reads past the second's end, and it finds the files equal
      exactly when the first is a prefix of the second. */
  lemma {:induction false} NoLongerFirst(a: seq<bv8>, b: seq<bv8>)
    requires |a| <= |b|
    ensures Compared(a, b) != Undefined
    ensures Compared(a, b) == Equal <==> a == b[..|a|]
  {
    if a == b[..|a|] {
      forall i | 0 <= i < |a| && i < |b| ensures a[i] == b[i] {
        assert b[..|a|][i] == b[i];
      }
    }
    if AgreeOnBoth(a, b) {
      forall i | 0 <= i < |a| ensures a[i] == b[..|a|][i] {
        assert a[i] == b[i];
      }
    }
  }

  /** A first file longer than the second never matches. It runs into
      undefined behaviour exactly when it starts with the second and
      continues with the byte 0xFF. */
  lemma {:induction false} LongerFirst(a: seq<bv8>, b: seq<bv8>)
    requires |b| < |a|
    ensures Compared(a, b) != Equal
    ensures Compared(a, b) == Undefined <==> a[..|b|] == b && a[|b|] == EofByte
  {
    if a[..|b|] == b {
      forall i | 0 <= i < |a| && i < |b| ensures a[i] == b[i] {
        assert a[..|b|][i] == a[i];
      }
    }
    if AgreeOnBoth(a, b) {
      forall i | 0 <= i < |b| ensures a[..|b|][i] == b[i] {
        assert a[i] == b[i];
      }
    }
  }

  /** The cases of the comparison on two readable files: identical
      contents, an empty first file or a first file that is a prefix of
      the second match; a differing byte within both files, or a longer
      first file whose next byte is not 0xFF, does not match. */
  lemma ExactMatchCases(fs: FileTree, first: Path, second: Path)
    requires Open(fs, first).Some? && Open(fs, second).Some?
    ensures var a, b := Open(fs, first).value, Open(fs, second).value;
            && (a == b ==> ExactMatch(fs, first, second) == Ok(Equal))
            && (a <= b ==> ExactMatch(fs, first, second) == Ok(Equal))
            && ((exists i :: 0 <= i < |a| && i < |b| && a[i] != b[i]) ==>
                  ExactMatch(fs, first, second) == Ok(Unequal))
            && (|b| < |a| && a[..|b|] == b && a[|b|] != EofByte ==>
                  ExactMatch(fs, first, second) == Ok(Unequal))
  {
    var a, b := Open(fs, first).value, Open(fs, second).value;
    if a <= b {
      NoLongerFirst(a, b);
    }
    if |b| < |a| {
      LongerFirst(a, b);
    }
  }

  /** A one-byte file 0xFF compared with an empty file runs into undefined
      behaviour; any other single byte is a mismatch. */
  lemma PastEndByte(x: bv8)
    ensures Compared([x], []) == if x == EofByte then Undefined else Unequal
  {
  }
}
