/** What a second run of the model fixer does: on files made of well-formed pieces,
    nothing. */
module FixAllModelsRerun {
  import opened Text
  import opened FixAllModels

  /** A second run of the fix changes nothing on a file made of well-formed pieces. */
  lemma FixIdempotent(cs: seq<Chunk>)
    requires AllWellFormed(cs)
    ensures Fix(Fix(RenderAll(cs))) == Fix(RenderAll(cs))
  {
    FixByChunks(cs);
    FixedIsStable(cs);
  }

  /** A fixed file is left as it is by the fix. */
  lemma FixedIsStable(cs: seq<Chunk>)
    requires AllWellFormed(cs)
    ensures Fix(RenderAll(MapChunks(cs, FixChunk()))) == RenderAll(MapChunks(cs, FixChunk()))
  {
    FixedPieces(cs);
    FixStableOn(MapChunks(cs, FixChunk()));
  }

  /** Fixed pieces are well formed and the fix map leaves them alone. */
  lemma FixedPieces(cs: seq<Chunk>)
    requires AllWellFormed(cs)
    ensures AllWellFormed(MapChunks(cs, FixChunk()))
    ensures MapChunks(MapChunks(cs, FixChunk()), FixChunk()) == MapChunks(cs, FixChunk())
  {
    FixKeepsWellFormed(cs);
    FixMapIdempotent(cs);
  }

  lemma FixStableOn(fixed: seq<Chunk>)
    requires AllWellFormed(fixed)
    requires MapChunks(fixed, FixChunk()) == fixed
    ensures Fix(RenderAll(fixed)) == RenderAll(fixed)
  {
    FixByChunks(fixed);
  }

  lemma FixKeepsWellFormed(cs: seq<Chunk>)
    requires AllWellFormed(cs)
    ensures AllWellFormed(MapChunks(cs, FixChunk()))
  {
    PieceMapsKeepWellFormed();
    MapKeepsWellFormed(cs, FixChunk());
  }

  /** The fix map is idempotent on pieces. */
  lemma FixMapIdempotent(cs: seq<Chunk>)
    ensures MapChunks(MapChunks(cs, FixChunk()), FixChunk()) == MapChunks(cs, FixChunk())
  {
    var fixed := MapChunks(cs, FixChunk());
    forall k | 0 <= k < |cs| ensures MapChunks(fixed, FixChunk())[k] == fixed[k] {
      assert fixed[k] == FixChunk()(cs[k]);
    }
  }

  /** When every model file is made of well-formed pieces, a second run of the script
      leaves the files as the first run left them. */
  lemma RunTwiceChangesNothing(files: map<string, string>, pieces: map<string, seq<Chunk>>)
    requires forall p :: p in files && p in PathsOf(Models) ==>
      p in pieces && files[p] == RenderAll(pieces[p]) &&
      forall i :: 0 <= i < |pieces[p]| ==> WellFormed(pieces[p][i])
    ensures ProcessAll(ProcessAll(files, Models), Models) == ProcessAll(files, Models)
  {
    var once := ProcessAll(files, Models);
    var twice := ProcessAll(once, Models);
    ModelPaths();
    RunEffect(files);
    RunEffect(once);
    forall p | p in files ensures twice[p] == once[p] {
      if p in PathsOf(Models) {
        FixIdempotent(pieces[p]);
      }
    }
  }
}
