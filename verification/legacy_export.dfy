/** The older tree's `export_database`: the same grouping, keyed by file
    hash, with a fourth relationship list giving each file its visual
    hash. */
module LegacyExport {
  import opened Wrappers
  import opened Export

  datatype LegacyStickerFile = LegacyStickerFile(stickerUniqueIds: seq<string>, tags: seq<string>, visualHash: Option<string>)

  /** The value of the last row for `k`, if any: the reference for a field
      that each row overwrites. */
  function LastValue(rels: seq<Relation>, k: string): Option<string>
    decreases |rels|
  {
    if |rels| == 0 then None
    else if rels[|rels| - 1].0 == k then Some(rels[|rels| - 1].1)
    else LastValue(rels[..|rels| - 1], k)
  }

  /** The surviving value is the last of the values grouped under the
      key, and there is one exactly when the key occurs. */
  lemma {:induction false} LastWins(rels: seq<Relation>, k: string)
    ensures LastValue(rels, k).None? <==> |ValuesOf(rels, k)| == 0
    ensures LastValue(rels, k).Some? ==> LastValue(rels, k).value == ValuesOf(rels, k)[|ValuesOf(rels, k)| - 1]
    decreases |rels|
  {
    if |rels| > 0 {
      LastWins(rels[..|rels| - 1], k);
    }
  }

  /** Files as grouped from stickers and tags, before any visual hash. */
  function WithoutHashes(files: map<string, ExportedStickerFile>): (r: map<string, LegacyStickerFile>)
    ensures r.Keys == files.Keys
    ensures forall f :: f in r ==> r[f] == LegacyStickerFile(files[f].stickerIds, files[f].tags, None)
  {
    map f | f in files :: LegacyStickerFile(files[f].stickerIds, files[f].tags, None)
  }

  predicate HashedSoFar(
    isA: seq<Relation>, tagged: seq<Relation>, hashes: seq<Relation>, i: nat, files: map<string, LegacyStickerFile>)
    requires i <= |hashes|
  {
    && files.Keys == FileKeys(isA) + KeysOf(tagged) + KeysOf(hashes[..i])
    && forall f :: f in files ==>
         files[f] == LegacyStickerFile(StickersOf(isA, f), ValuesOf(tagged, f), LastValue(hashes[..i], f))
  }

  /** `files.entry(file_hash).or_insert_with(..).visual_hash = Some(..)`. */
  function SetHash(files: map<string, LegacyStickerFile>, file: string, hash: string): map<string, LegacyStickerFile> {
    var entry := if file in files then files[file] else LegacyStickerFile([], [], None);
    files[file := entry.(visualHash := Some(hash))]
  }

  lemma LastValueAbsent(rels: seq<Relation>, k: string)
    requires k !in KeysOf(rels)
    ensures LastValue(rels, k) == None
  {
    ValuesOfAbsent(rels, k);
    LastWins(rels, k);
  }

  lemma SetHashStep(isA: seq<Relation>, tagged: seq<Relation>, hashes: seq<Relation>, i: nat, files: map<string, LegacyStickerFile>)
    requires i < |hashes|
    requires HashedSoFar(isA, tagged, hashes, i, files)
    ensures HashedSoFar(isA, tagged, hashes, i + 1, SetHash(files, hashes[i].0, hashes[i].1))
  {
    var (file, hash) := hashes[i];
    assert hashes[..i + 1][..i] == hashes[..i];
    KeysOfStep(hashes, i);
    if file !in files {
      StickersOfAbsent(isA, file);
      ValuesOfAbsent(tagged, file);
    }
  }

  /** The loop over the visual-hash rows: each sets its file's hash, so
      the last row for a file wins. */
  method AddHashes(isA: seq<Relation>, tagged: seq<Relation>, start: map<string, LegacyStickerFile>, hashes: seq<Relation>)
    returns (files: map<string, LegacyStickerFile>)
    requires start.Keys == FileKeys(isA) + KeysOf(tagged)
    requires forall f :: f in start ==> start[f] == LegacyStickerFile(StickersOf(isA, f), ValuesOf(tagged, f), None)
    ensures files.Keys == FileKeys(isA) + KeysOf(tagged) + KeysOf(hashes)
    ensures forall f :: f in files ==>
              files[f] == LegacyStickerFile(StickersOf(isA, f), ValuesOf(tagged, f), LastValue(hashes, f))
  {
    files := start;
    assert hashes[..0] == [];
    for i := 0 to |hashes|
      invariant HashedSoFar(isA, tagged, hashes, i, files)
    {
      SetHashStep(isA, tagged, hashes, i, files);
      files := SetHash(files, hashes[i].0, hashes[i].1);
    }
    assert hashes[..|hashes|] == hashes;
  }

  datatype LegacyExportedData = LegacyExportedData(sets: map<string, seq<string>>, files: map<string, LegacyStickerFile>)

  /** `export_database` over `contains` (set, sticker), `is_a` (sticker,
      file hash), `tagged` (file hash, tag) and the visual-hash rows (file
      hash, visual hash). */
  method LegacyExportDatabase(contains: seq<Relation>, isA: seq<Relation>, tagged: seq<Relation>, hashes: seq<Relation>)
    returns (data: LegacyExportedData)
    ensures data.sets.Keys == KeysOf(contains)
    ensures forall s :: s in data.sets ==> data.sets[s] == ValuesOf(contains, s)
    ensures data.files.Keys == FileKeys(isA) + KeysOf(tagged) + KeysOf(hashes)
    ensures forall f :: f in data.files ==>
              data.files[f] == LegacyStickerFile(StickersOf(isA, f), ValuesOf(tagged, f), LastValue(hashes, f))
  {
    var sets := GroupRelations(contains);
    var stickers := GroupStickers(isA);
    var grouped := AddTags(isA, stickers, tagged);
    var files := AddHashes(isA, tagged, WithoutHashes(grouped), hashes);
    data := LegacyExportedData(sets, files);
  }

  /** A file hash with two visual-hash rows keeps the later one. */
  lemma LaterHashWins(file: string, first: string, second: string)
    ensures LastValue([(file, first), (file, second)], file) == Some(second)
  {
  }
}
