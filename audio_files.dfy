/**
 * The audio-file classifier of `get_audio_files`: it keeps the original audio
 * files of an archive item's file listing and orders them MP3 first, then by
 * size, with a stable sort.
 */
module AudioFiles {

  /** The `size` field of a file entry as `int(f.get('size', 0))` sees it. */
  datatype Size =
    | Absent          // no `size` field: counts as 0
    | Bytes(n: int)   // a field `int()` accepts
    | Malformed       // a field `int()` rejects with an exception

  /** One entry of the item's `files` listing. A missing `name`, `format` or
      `source` field is the empty string: each filter below treats the two alike. */
  datatype ArchiveFile = ArchiveFile(name: string, format: string, source: string, size: Size)

  /** The allow-list of formats (iamd.py line 66). */
  const AUDIO_FORMATS: seq<string> := ["VBR MP3", "MP3", "FLAC", "Ogg Vorbis", "WAVE"]

  predicate IsAudio(f: ArchiveFile) {
    f.format in AUDIO_FORMATS && f.source == "original" && f.name != ""
  }

  /** The list comprehension: the audio files, in listing order. */
  function Candidates(files: seq<ArchiveFile>): seq<ArchiveFile> {
    if files == [] then []
    else (if IsAudio(files[0]) then [files[0]] else []) + Candidates(files[1..])
  }

  /** The comprehension keeps exactly the audio files, each as often as listed. */
  lemma {:induction false} CandidatesFilter(files: seq<ArchiveFile>)
    ensures forall f :: f in Candidates(files) ==> IsAudio(f)
    ensures forall f :: f in files && IsAudio(f) ==> f in Candidates(files)
    ensures multiset(Candidates(files)) <= multiset(files)
    ensures forall f :: IsAudio(f) ==> multiset(Candidates(files))[f] == multiset(files)[f]
  {
    if files != [] {
      CandidatesFilter(files[1..]);
      assert files == [files[0]] + files[1..];
    }
  }

  /** Does `sub` occur in `s`? (Python's `sub in s` on strings.) */
  predicate Contains(s: string, sub: string)
    decreases |s|
  {
    |sub| <= |s| && (s[..|sub|] == sub || Contains(s[1..], sub))
  }

  predicate IsMp3(f: ArchiveFile) {
    Contains(f.format, "MP3")
  }

  /** The byte count the sort key uses. A malformed size has none; `Classify`
      never sorts a list holding one, so the 0 given to it here is never compared. */
  function SizeOf(f: ArchiveFile): int {
    match f.size
    case Absent => 0
    case Bytes(n) => n
    case Malformed => 0
  }

  /** The sort key `(0 if is_mp3 else 1, size)`. */
  datatype Key = Key(rank: nat, size: int)

  function KeyOf(f: ArchiveFile): Key {
    Key(if IsMp3(f) then 0 else 1, SizeOf(f))
  }

  /** Python's lexicographic order on the key tuples. */
  predicate KeyLe(a: Key, b: Key) {
    a.rank < b.rank || (a.rank == b.rank && a.size <= b.size)
  }

  ghost predicate SortedByKey(s: seq<ArchiveFile>) {
    forall i, j :: 0 <= i < j < |s| ==> KeyLe(KeyOf(s[i]), KeyOf(s[j]))
  }

  /** The files of `s` whose key is `k`, in the order of `s`. */
  function WithKey(s: seq<ArchiveFile>, k: Key): seq<ArchiveFile> {
    if s == [] then []
    else (if KeyOf(s[0]) == k then [s[0]] else []) + WithKey(s[1..], k)
  }

  /** Stability: every key's files appear in the same order in `a` and `b`. */
  ghost predicate SameOrderPerKey(a: seq<ArchiveFile>, b: seq<ArchiveFile>) {
    forall k :: WithKey(a, k) == WithKey(b, k)
  }

  /** Puts `x` in front of the first file whose key is not below its own. */
  function Insert(x: ArchiveFile, t: seq<ArchiveFile>): (r: seq<ArchiveFile>)
    ensures |r| == |t| + 1
  {
    if t == [] then [x]
    else if KeyLe(KeyOf(x), KeyOf(t[0])) then [x] + t
    else [t[0]] + Insert(x, t[1..])
  }

  /** A stable sort by `KeyOf` (insertion sort, earliest file inserted last). */
  function Sort(s: seq<ArchiveFile>): (r: seq<ArchiveFile>)
    ensures |r| == |s|
  {
    if s == [] then [] else Insert(s[0], Sort(s[1..]))
  }

  predicate HasMalformedSize(files: seq<ArchiveFile>) {
    exists f :: f in files && f.size == Malformed
  }

  /** `get_audio_files` after the metadata request: filter, then sort by key.
      A malformed size makes the key function raise, and the surrounding
      `except` turns that into an empty list. */
  function Classify(files: seq<ArchiveFile>): seq<ArchiveFile> {
    var c := Candidates(files);
    if HasMalformedSize(c) then [] else Sort(c)
  }

  // ---------------------------------------------------------------- Insert

  lemma {:induction false} InsertMultiset(x: ArchiveFile, t: seq<ArchiveFile>)
    ensures multiset(Insert(x, t)) == multiset(t) + multiset{x}
  {
    if t != [] && !KeyLe(KeyOf(x), KeyOf(t[0])) {
      InsertMultiset(x, t[1..]);
      assert t == [t[0]] + t[1..];
    }
  }

  lemma {:induction false} InsertSorted(x: ArchiveFile, t: seq<ArchiveFile>)
    requires SortedByKey(t)
    ensures SortedByKey(Insert(x, t))
  {
    if t != [] && !KeyLe(KeyOf(x), KeyOf(t[0])) {
      var rest := Insert(x, t[1..]);
      InsertSorted(x, t[1..]);
      InsertMultiset(x, t[1..]);
      forall j | 0 <= j < |rest|
        ensures KeyLe(KeyOf(t[0]), KeyOf(rest[j]))
      {
        assert rest[j] in multiset(rest);
        assert rest[j] == x || rest[j] in t[1..];
      }
    }
  }

  lemma {:induction false} InsertWithKey(x: ArchiveFile, t: seq<ArchiveFile>, k: Key)
    ensures WithKey(Insert(x, t), k) == (if KeyOf(x) == k then [x] else []) + WithKey(t, k)
  {
    var r := Insert(x, t);
    if t == [] {
      assert r == [x];
      assert r[1..] == [];
    } else if KeyLe(KeyOf(x), KeyOf(t[0])) {
      assert r == [x] + t;
      assert r[0] == x && r[1..] == t;
    } else {
      assert r[0] == t[0] && r[1..] == Insert(x, t[1..]);
      InsertWithKey(x, t[1..], k);
      assert KeyOf(t[0]) != KeyOf(x);
    }
  }

  // ------------------------------------------------------------------ Sort

  /** The sort is a permutation of its input. */
  lemma {:induction false} SortPermutation(s: seq<ArchiveFile>)
    ensures multiset(Sort(s)) == multiset(s)
  {
    if s != [] {
      SortPermutation(s[1..]);
      InsertMultiset(s[0], Sort(s[1..]));
      assert s == [s[0]] + s[1..];
    }
  }

  /** The sort orders by key. */
  lemma {:induction false} SortSorted(s: seq<ArchiveFile>)
    ensures SortedByKey(Sort(s))
  {
    if s != [] {
      SortSorted(s[1..]);
      InsertSorted(s[0], Sort(s[1..]));
    }
  }

  /** The sort is stable: files with equal keys keep their input order. */
  lemma {:induction false} SortStable(s: seq<ArchiveFile>)
    ensures SameOrderPerKey(Sort(s), s)
  {
    forall k ensures WithKey(Sort(s), k) == WithKey(s, k) {
      SortStableAt(s, k);
    }
  }

  lemma {:induction false} SortStableAt(s: seq<ArchiveFile>, k: Key)
    ensures WithKey(Sort(s), k) == WithKey(s, k)
  {
    if s != [] {
      SortStableAt(s[1..], k);
      InsertWithKey(s[0], Sort(s[1..]), k);
    }
  }

  lemma {:induction false} WithKeyMembers(s: seq<ArchiveFile>, k: Key)
    ensures forall f :: f in WithKey(s, k) ==> f in s && KeyOf(f) == k
  {
    if s != [] {
      WithKeyMembers(s[1..], k);
    }
  }

  lemma {:induction false} WithKeyHas(s: seq<ArchiveFile>, i: nat)
    requires i < |s|
    ensures WithKey(s, KeyOf(s[i])) != []
  {
    if i > 0 {
      WithKeyHas(s[1..], i - 1);
    }
  }

  /** Ordering by key plus stability pins the result down: any stable sort
      of the same files (Python's `list.sort` among them) returns `Sort`'s answer. */
  lemma {:induction false} SortedStableUnique(a: seq<ArchiveFile>, b: seq<ArchiveFile>)
    requires SortedByKey(a) && SortedByKey(b) && SameOrderPerKey(a, b)
    ensures a == b
  {
    if a == [] || b == [] {
      if a != [] {
        WithKeyHas(a, 0);
        assert false;
      } else if b != [] {
        WithKeyHas(b, 0);
        assert false;
      }
    } else {
      var ka, kb := KeyOf(a[0]), KeyOf(b[0]);
      assert KeyLe(kb, ka) by {
        WithKeyHas(a, 0);
        WithKeyMembers(b, ka);
        var w := WithKey(b, ka);
        assert w != [] && w[0] in b;
        var j :| 0 <= j < |b| && b[j] == w[0];
      }
      assert KeyLe(ka, kb) by {
        WithKeyHas(b, 0);
        WithKeyMembers(a, kb);
        var w := WithKey(a, kb);
        assert w != [] && w[0] in a;
        var j :| 0 <= j < |a| && a[j] == w[0];
      }
      assert ka == kb;
      assert WithKey(a, ka) == [a[0]] + WithKey(a[1..], ka);
      assert WithKey(b, ka) == [b[0]] + WithKey(b[1..], ka);
      assert a[0] == WithKey(a, ka)[0] == WithKey(b, ka)[0] == b[0];
      forall k ensures WithKey(a[1..], k) == WithKey(b[1..], k) {
        assert WithKey(a, k) == WithKey(b, k);
        if k == ka {
          assert WithKey(a, k)[1..] == WithKey(a[1..], k);
          assert WithKey(b, k)[1..] == WithKey(b[1..], k);
        } else {
          assert WithKey(a, k) == WithKey(a[1..], k);
          assert WithKey(b, k) == WithKey(b[1..], k);
        }
      }
      SortedStableUnique(a[1..], b[1..]);
      assert a == [a[0]] + a[1..] && b == [b[0]] + b[1..];
    }
  }

  /** The sort result is the only sorted, stable arrangement of its input. */
  lemma SortIsTheStableSort(s: seq<ArchiveFile>, r: seq<ArchiveFile>)
    requires SortedByKey(r) && SameOrderPerKey(r, s)
    ensures r == Sort(s)
  {
    SortSorted(s);
    SortStable(s);
    SortedStableUnique(r, Sort(s));
  }

  // ------------------------------------------------------------- Classify

  /** Every returned file is an original audio file of the listing, and when no
      candidate has a malformed size every original audio file is returned, each
      as often as it is listed. */
  lemma ClassifyContents(files: seq<ArchiveFile>)
    ensures forall f :: f in Classify(files) ==> IsAudio(f) && f in files
    ensures !HasMalformedSize(Candidates(files)) ==> multiset(Classify(files)) == multiset(Candidates(files))
    ensures !HasMalformedSize(Candidates(files)) ==> forall f :: f in files && IsAudio(f) ==> f in Classify(files)
    ensures HasMalformedSize(Candidates(files)) ==> Classify(files) == []
  {
    var c := Candidates(files);
    CandidatesFilter(files);
    SortPermutation(c);
    forall f | f in Classify(files) ensures IsAudio(f) && f in files {
      assert f in multiset(Sort(c));
      assert f in multiset(files);
    }
    forall f | f in files && IsAudio(f) && !HasMalformedSize(c) ensures f in Classify(files) {
      assert f in multiset(c);
    }
  }

  /** MP3-family files come before all others, and within a family sizes never decrease. */
  lemma ClassifyOrder(files: seq<ArchiveFile>, i: nat, j: nat)
    requires i < j < |Classify(files)|
    ensures IsMp3(Classify(files)[j]) ==> IsMp3(Classify(files)[i])
    ensures IsMp3(Classify(files)[i]) == IsMp3(Classify(files)[j]) ==>
              SizeOf(Classify(files)[i]) <= SizeOf(Classify(files)[j])
  {
    SortSorted(Candidates(files));
  }

  /** Files with equal keys keep the order the listing gives them. */
  lemma ClassifyStable(files: seq<ArchiveFile>, k: Key)
    requires !HasMalformedSize(Candidates(files))
    ensures WithKey(Classify(files), k) == WithKey(Candidates(files), k)
  {
    SortStableAt(Candidates(files), k);
  }

  lemma {:induction false} NotContains(s: string, sub: string)
    requires sub != [] && sub[0] !in s
    ensures !Contains(s, sub)
  {
    if |sub| <= |s| {
      assert s[..|sub|][0] == s[0];
      NotContains(s[1..], sub);
    }
  }

  /** On the allow-list, the MP3 family is exactly "VBR MP3" and "MP3". */
  lemma Mp3Family(f: ArchiveFile)
    requires f.format in AUDIO_FORMATS
    ensures IsMp3(f) <==> (f.format == "VBR MP3" || f.format == "MP3")
  {
    var fmt := f.format;
    if fmt == "VBR MP3" {
      assert fmt[4..] == "MP3" && fmt[4..][..3] == "MP3";
      assert Contains(fmt[4..], "MP3");
      assert fmt[1..][1..][1..][1..] == fmt[4..];
    } else if fmt == "MP3" {
      assert fmt[..3] == "MP3";
    } else if fmt == "FLAC" {
      NotContains(fmt, "MP3");
    } else if fmt == "Ogg Vorbis" {
      NotContains(fmt, "MP3");
    } else {
      assert fmt == "WAVE";
      NotContains(fmt, "MP3");
    }
  }

  /** A FLAC listed before a smaller MP3 and a torrent descriptor: the MP3 comes first
      and the descriptor is dropped. */
  lemma ClassifyExample()
    ensures Classify([
      ArchiveFile("song.flac", "FLAC", "original", Bytes(20000000)),
      ArchiveFile("song.mp3", "MP3", "original", Bytes(3000000)),
      ArchiveFile("cover.torrent", "Archive BitTorrent", "metadata", Bytes(1000))])
      == [ArchiveFile("song.mp3", "MP3", "original", Bytes(3000000)),
          ArchiveFile("song.flac", "FLAC", "original", Bytes(20000000))]
  {
  }
}
