/** eval_fusion's cache around an embedder (examples/eval_fusion/main.rs). It
    reads the file that eval_measure writes, but checks the width of each vector
    and stops reading at bytes that are no text. */
module FusionCache {
  import opened Prelude
  import opened CacheKey
  import opened VectorCache

  /** The lines up to the first that is no text. */
  function ReadableText(lines: seq<Line>): (r: seq<Line>)
    ensures r <= lines && (forall i | 0 <= i < |r| :: !lines[i].NotText?)
    ensures |r| < |lines| ==> lines[|r|].NotText?
  {
    if lines == [] || lines[0].NotText? then [] else [lines[0]] + ReadableText(lines[1..])
  }

  class CachedEmbedder {
    const inner: Embedder
    var stored: map<Text, Vector>
    var embedded: map<Text, Vector>
    var file: Option<CacheFile>
    var hits: nat
    var misses: nat
    /** The number of the first write that failed. */
    var writeError: Option<nat>

    constructor (inner: Embedder)
      ensures this.inner == inner && stored == map[] && embedded == map[] && file == None
      ensures hits == 0 && misses == 0 && writeError == None
    {
      this.inner := inner;
      stored, embedded, file, hits, misses, writeError := map[], map[], None, 0, 0, None;
    }

    ghost predicate Valid()
      reads this
    {
      && inner.world.Fair()
      && ServesRight(inner.world, inner.contract, stored)
      && ServesRight(inner.world, inner.contract, embedded)
    }

    function Files(): set<object>
      reads this
    {
      if file.Some? then {file.value} else {}
    }

    method Open(f: CacheFile)
      requires inner.world.Fair() && stored == map[] && embedded == map[]
      requires forall line | line in f.disk.Readable() :: RightOrCut(inner.world, line)
      modifies this
      ensures Valid() && file == Some(f)
      ensures stored == Load(ReadableText(f.disk.Readable()), Some(inner.world.dim(inner.contract)))
      ensures embedded == map[] && hits == old(hits) && misses == old(misses) && writeError == old(writeError)
    {
      var lines := f.disk.Readable();
      var width := inner.world.dim(inner.contract);
      hide Load;
      ReadStored(lines, width);
      CheckedLoadServesRight(inner.world, inner.contract, ReadableText(lines));
      file := Some(f);
    }

    /** The loop over the lines. */
    method ReadStored(lines: seq<Line>, width: nat)
      requires stored == map[]
      modifies this`stored
      ensures stored == Load(ReadableText(lines), Some(width))
    {
      ghost var text := ReadableText(lines);
      assert lines[..0] == [];
      var i := 0;
      while i < |lines| && !lines[i].NotText?
        invariant 0 <= i <= |text|
        invariant stored == Load(lines[..i], Some(width))
      {
        LoadOneMore(lines, i, Some(width));
        if Accepts(lines[i], Some(width)) {
          stored := stored[lines[i].key := lines[i].v];
        }
        i := i + 1;
      }
      assert lines[..i] == text;
    }

    method Lookup(role: Role, text: Sized) returns (v: Option<Vector>)
      requires Valid()
      modifies this`hits, this`misses
      ensures Valid()
      ensures v.Some? <==> inner.world.Key(inner.contract, role, text) in stored.Keys + embedded.Keys
      ensures v.Some? ==> v.value == inner.world.vector(inner.contract, role, text)
      ensures hits == old(hits) + (if v.Some? then 1 else 0)
      ensures misses == old(misses) + (if v.Some? then 0 else 1)
    {
      var key := inner.world.Key(inner.contract, role, text);
      v := if key in stored then Some(stored[key]) else if key in embedded then Some(embedded[key]) else None;
      if v.Some? {
        hits := hits + 1;
      } else {
        misses := misses + 1;
      }
    }

    method Keep(role: Role, text: Sized, v: Vector)
      requires Valid() && v == inner.world.vector(inner.contract, role, text)
      modifies this`embedded, this`writeError, Files()
      ensures Valid()
      ensures embedded == old(embedded)[inner.world.Key(inner.contract, role, text) := v]
      ensures file.None? ==> writeError == old(writeError)
      ensures file.Some? ==>
        var written := old(file.value.outcomes(file.value.writes));
        && file.value.disk == Written(old(file.value.disk), EntryFor(inner.world, inner.contract, role, text), written)
        && writeError == if old(writeError).Some? || written.Full? then old(writeError)
                         else Some(old(file.value.writes))
    {
      var key := inner.world.Key(inner.contract, role, text);
      NewStaysRight(inner.world, inner.contract, role, text, embedded);
      embedded := embedded[key := v];
      if file.Some? {
        var number := file.value.writes;
        var ok := file.value.Append(Entry(key, v));
        if !ok && writeError.None? {
          writeError := Some(number);
        }
      }
    }

    /** `embed` and `embed_query`: each text and role is asked for at most once,
        unless the embedder refuses, and the answer is the embedder's. */
    method Embed(role: Role, text: Sized) returns (v: Option<Vector>)
      requires Valid()
      modifies this`hits, this`misses, this`embedded, this`writeError, Files(), inner
      ensures Valid()
      ensures v.Some? ==> v.value == inner.world.vector(inner.contract, role, text)
      ensures v.None? <==>
        && inner.world.Key(inner.contract, role, text) !in stored.Keys + old(embedded).Keys
        && inner.fails(old(|inner.asked|))
      ensures hits + misses == old(hits + misses) + 1
      ensures var key := inner.world.Key(inner.contract, role, text);
        if key in stored.Keys + old(embedded).Keys then
          && v.Some? && misses == old(misses) && inner.asked == old(inner.asked) && embedded == old(embedded)
          && writeError == old(writeError) && (file.Some? ==> file.value.disk == old(file.value.disk))
        else
          && hits == old(hits) && inner.asked == old(inner.asked) + [(role, text)]
          && embedded == (if v.Some? then old(embedded)[key := v.value] else old(embedded))
      ensures file.Some? ==> Grew(inner.world, old(file.value.disk), file.value.disk)
      ensures file.Some? && inner.world.Key(inner.contract, role, text) !in stored.Keys + old(embedded).Keys ==>
        var written := old(file.value.outcomes(file.value.writes));
        if v.None? then file.value.disk == old(file.value.disk) && writeError == old(writeError)
        else
          && file.value.disk
             == Written(old(file.value.disk), EntryFor(inner.world, inner.contract, role, text), written)
          && writeError == if old(writeError).Some? || written.Full? then old(writeError)
                           else Some(old(file.value.writes))
    {
      hide ServesRight, World.Key, Written, World.Fair;
      v := Lookup(role, text);
      if v.Some? {
        return;
      }
      v := inner.Embed(role, text);
      if v.Some? {
        Keep(role, text, v.value);
        if file.Some? {
          EntryForIsRight(inner.world, inner.contract, role, text);
          WrittenGrows(inner.world, old(file.value.disk), EntryFor(inner.world, inner.contract, role, text),
            old(file.value.outcomes(file.value.writes)));
        }
      }
    }
  }

  lemma NewStaysRight(w: World, c: Sized, role: Role, text: Sized, embedded: map<Text, Vector>)
    requires w.Fair() && ServesRight(w, c, embedded)
    ensures ServesRight(w, c, embedded[w.Key(c, role, text) := w.vector(c, role, text)])
  {
    forall role', text' | w.Key(c, role', text') == w.Key(c, role, text)
      ensures role' == role && text' == text
    {
      KeyInjective(w, c, role, text, c, role', text');
    }
  }

  lemma WrittenGrows(w: World, disk: Disk, line: Line, outcome: Outcome)
    requires Right(w, line)
    ensures Grew(w, disk, Written(disk, line, outcome))
  {
    forall seen | seen in Written(disk, line, outcome).Readable()
      ensures seen in disk.Readable() || Right(w, seen)
    {}
  }

  lemma LoadOneMore(lines: seq<Line>, i: nat, width: Option<nat>)
    requires i < |lines|
    ensures Load(lines[..i + 1], width)
         == if Accepts(lines[i], width) then Load(lines[..i], width)[lines[i].key := lines[i].v]
            else Load(lines[..i], width)
  {
    assert lines[..i + 1][..i] == lines[..i];
  }
}
