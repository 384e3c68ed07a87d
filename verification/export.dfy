/** `export_database`: the database dump. Each relationship is a pair
    read in the order the database returns it; the pairs are folded into a
    map from sets to their stickers and a map from sticker files to their
    stickers and tags. */
module Export {

  /** A relationship row: (from, to). */
  type Relation = (string, string)

  /** The keys the relationships mention. */
  function KeysOf(rels: seq<Relation>): (r: set<string>)
    ensures forall i :: 0 <= i < |rels| ==> rels[i].0 in r
    ensures forall k :: k in r ==> exists i :: 0 <= i < |rels| && rels[i].0 == k
  {
    set i | 0 <= i < |rels| :: rels[i].0
  }

  /** The values related to `k`, in row order: the reference grouping. */
  function ValuesOf(rels: seq<Relation>, k: string): seq<string>
    decreases |rels|
  {
    if |rels| == 0 then []
    else ValuesOf(rels[..|rels| - 1], k) + (if rels[|rels| - 1].0 == k then [rels[|rels| - 1].1] else [])
  }

  lemma {:induction false} ValuesOfAbsent(rels: seq<Relation>, k: string)
    requires k !in KeysOf(rels)
    ensures ValuesOf(rels, k) == []
    decreases |rels|
  {
    if |rels| > 0 {
      var init := rels[..|rels| - 1];
      assert KeysOf(init) <= KeysOf(rels) by {
        forall i | 0 <= i < |init| ensures init[i].0 in KeysOf(rels) {
          assert init[i] == rels[i];
        }
      }
      ValuesOfAbsent(rels[..|rels| - 1], k);
    }
  }

  /** The number of rows before `i` with the same key as row `i`. */
  function Rank(rels: seq<Relation>, i: nat): nat
    requires i < |rels|
  {
    |ValuesOf(rels[..i], rels[i].0)|
  }

  /** Row `i` sits in its key's list at its rank, so every row is placed
      once, in order. */
  lemma {:induction false} RowPlaced(rels: seq<Relation>, i: nat)
    requires i < |rels|
    ensures Rank(rels, i) < |ValuesOf(rels, rels[i].0)|
    ensures ValuesOf(rels, rels[i].0)[Rank(rels, i)] == rels[i].1
    decreases |rels|
  {
    var k := rels[i].0;
    var init := rels[..|rels| - 1];
    if i == |rels| - 1 {
      assert rels[..i] == init;
    } else {
      assert init[i] == rels[i] && init[..i] == rels[..i];
      RowPlaced(init, i);
    }
  }

  /** One `entry(key).or_insert_with(Vec::new).push(value)` loop: the
      grouping of `sets`. */
  method GroupRelations(rels: seq<Relation>) returns (m: map<string, seq<string>>)
    ensures m.Keys == KeysOf(rels)
    ensures forall k :: k in m ==> m[k] == ValuesOf(rels, k)
  {
    m := map[];
    for i := 0 to |rels|
      invariant m.Keys == KeysOf(rels[..i])
      invariant forall k :: k in m ==> m[k] == ValuesOf(rels[..i], k)
    {
      var (key, value) := rels[i];
      ValuesOfStep(rels, i);
      KeysOfStep(rels, i);
      if key !in m {
        ValuesOfAbsent(rels[..i], key);
      }
      m := m[key := (if key in m then m[key] else []) + [value]];
    }
    assert rels[..|rels|] == rels;
  }

  lemma ValuesOfStep(rels: seq<Relation>, i: nat)
    requires i < |rels|
    ensures forall k :: ValuesOf(rels[..i + 1], k) == ValuesOf(rels[..i], k) + (if rels[i].0 == k then [rels[i].1] else [])
  {
    assert rels[..i + 1][..i] == rels[..i];
  }

  lemma KeysOfStep(rels: seq<Relation>, i: nat)
    requires i < |rels|
    ensures KeysOf(rels[..i + 1]) == KeysOf(rels[..i]) + {rels[i].0}
  {
    var before := rels[..i];
    var after := rels[..i + 1];
    forall k | k in KeysOf(after) ensures k in KeysOf(before) + {rels[i].0} {
      var j :| 0 <= j < |after| && after[j].0 == k;
      if j < i {
        assert before[j] == after[j];
      }
    }
    forall k | k in KeysOf(before) ensures k in KeysOf(after) {
      var j :| 0 <= j < |before| && before[j].0 == k;
      assert after[j] == before[j];
    }
    assert after[i] == rels[i];
  }

  datatype ExportedStickerFile = ExportedStickerFile(stickerIds: seq<string>, tags: seq<string>)

  /** The loop over `is_a` (sticker, file): each file's stickers. */
  method GroupStickers(isA: seq<Relation>) returns (files: map<string, ExportedStickerFile>)
    ensures files.Keys == FileKeys(isA)
    ensures forall f :: f in files ==> files[f] == ExportedStickerFile(StickersOf(isA, f), [])
  {
    files := map[];
    for i := 0 to |isA|
      invariant files.Keys == FileKeys(isA[..i])
      invariant forall f :: f in files ==> files[f] == ExportedStickerFile(StickersOf(isA[..i], f), [])
    {
      var (sticker, file) := isA[i];
      StickersOfStep(isA, i);
      FileKeysStep(isA, i);
      if file !in files {
        StickersOfAbsent(isA[..i], file);
      }
      var entry := if file in files then files[file] else ExportedStickerFile([], []);
      files := files[file := entry.(stickerIds := entry.stickerIds + [sticker])];
    }
    assert isA[..|isA|] == isA;
  }

  /** The state of the `tagged` loop after its first `i` rows. */
  predicate TaggedSoFar(isA: seq<Relation>, tagged: seq<Relation>, i: nat, files: map<string, ExportedStickerFile>)
    requires i <= |tagged|
  {
    && files.Keys == FileKeys(isA) + KeysOf(tagged[..i])
    && forall f :: f in files ==> files[f] == ExportedStickerFile(StickersOf(isA, f), ValuesOf(tagged[..i], f))
  }

  /** `files.entry(file).or_insert_with(ExportedStickerFile::new).add_tag(tag)`. */
  function AddTag(files: map<string, ExportedStickerFile>, file: string, tag: string): map<string, ExportedStickerFile> {
    var entry := if file in files then files[file] else ExportedStickerFile([], []);
    files[file := entry.(tags := entry.tags + [tag])]
  }

  lemma AddTagStep(isA: seq<Relation>, tagged: seq<Relation>, i: nat, files: map<string, ExportedStickerFile>)
    requires i < |tagged|
    requires TaggedSoFar(isA, tagged, i, files)
    ensures TaggedSoFar(isA, tagged, i + 1, AddTag(files, tagged[i].0, tagged[i].1))
  {
    var (file, tag) := tagged[i];
    ValuesOfStep(tagged, i);
    KeysOfStep(tagged, i);
    if file !in files {
      StickersOfAbsent(isA, file);
      ValuesOfAbsent(tagged[..i], file);
    }
  }

  /** The loop over `tagged` (file, tag): a file not seen yet gets an
      entry from its first tag. */
  method AddTags(isA: seq<Relation>, start: map<string, ExportedStickerFile>, tagged: seq<Relation>)
    returns (files: map<string, ExportedStickerFile>)
    requires start.Keys == FileKeys(isA)
    requires forall f :: f in start ==> start[f] == ExportedStickerFile(StickersOf(isA, f), [])
    ensures files.Keys == FileKeys(isA) + KeysOf(tagged)
    ensures forall f :: f in files ==> files[f] == ExportedStickerFile(StickersOf(isA, f), ValuesOf(tagged, f))
  {
    files := start;
    assert tagged[..0] == [];
    for i := 0 to |tagged|
      invariant TaggedSoFar(isA, tagged, i, files)
    {
      AddTagStep(isA, tagged, i, files);
      files := AddTag(files, tagged[i].0, tagged[i].1);
    }
    assert tagged[..|tagged|] == tagged;
  }

  /** `is_a` rows are (sticker, file): the files they mention. */
  function FileKeys(isA: seq<Relation>): set<string> {
    KeysOf(Swap(isA))
  }

  function StickersOf(isA: seq<Relation>, f: string): seq<string> {
    ValuesOf(Swap(isA), f)
  }

  function Swap(rels: seq<Relation>): (r: seq<Relation>)
    ensures |r| == |rels|
    ensures forall i :: 0 <= i < |rels| ==> r[i] == (rels[i].1, rels[i].0)
  {
    seq(|rels|, i requires 0 <= i < |rels| => (rels[i].1, rels[i].0))
  }

  lemma SwapPrefix(rels: seq<Relation>, i: nat)
    requires i <= |rels|
    ensures Swap(rels[..i]) == Swap(rels)[..i]
  {
  }

  lemma StickersOfStep(isA: seq<Relation>, i: nat)
    requires i < |isA|
    ensures forall f :: StickersOf(isA[..i + 1], f) == StickersOf(isA[..i], f) + (if isA[i].1 == f then [isA[i].0] else [])
  {
    SwapPrefix(isA, i);
    SwapPrefix(isA, i + 1);
    ValuesOfStep(Swap(isA), i);
  }

  lemma FileKeysStep(isA: seq<Relation>, i: nat)
    requires i < |isA|
    ensures FileKeys(isA[..i + 1]) == FileKeys(isA[..i]) + {isA[i].1}
  {
    SwapPrefix(isA, i);
    SwapPrefix(isA, i + 1);
    KeysOfStep(Swap(isA), i);
  }

  lemma StickersOfAbsent(isA: seq<Relation>, f: string)
    requires f !in FileKeys(isA)
    ensures StickersOf(isA, f) == []
  {
    ValuesOfAbsent(Swap(isA), f);
  }

  /** The exported data: `files` before `into_values` drops its keys. */
  datatype ExportedData = ExportedData(sets: map<string, seq<string>>, files: map<string, ExportedStickerFile>)

  /** `export_database` over the three relationship lists the database
      returns: `contains` (set, sticker), `is_a` (sticker, file) and
      `tagged` (file, tag). */
  method ExportDatabase(contains: seq<Relation>, isA: seq<Relation>, tagged: seq<Relation>) returns (data: ExportedData)
    ensures data.sets.Keys == KeysOf(contains)
    ensures forall s :: s in data.sets ==> data.sets[s] == ValuesOf(contains, s)
    ensures data.files.Keys == FileKeys(isA) + KeysOf(tagged)
    ensures forall f :: f in data.files ==> data.files[f] == ExportedStickerFile(StickersOf(isA, f), ValuesOf(tagged, f))
  {
    var sets := GroupRelations(contains);
    var stickers := GroupStickers(isA);
    var files := AddTags(isA, stickers, tagged);
    data := ExportedData(sets, files);
  }

  /** A file that only the tag rows mention still gets an entry, with no
      stickers and its tags in order. */
  lemma TagOnlyFile(isA: seq<Relation>, tagged: seq<Relation>, files: map<string, ExportedStickerFile>, f: string)
    requires files.Keys == FileKeys(isA) + KeysOf(tagged)
    requires forall g :: g in files ==> files[g] == ExportedStickerFile(StickersOf(isA, g), ValuesOf(tagged, g))
    requires f in KeysOf(tagged) && f !in FileKeys(isA)
    ensures f in files && files[f].stickerIds == [] && files[f].tags == ValuesOf(tagged, f)
  {
    StickersOfAbsent(isA, f);
  }
}
