/** Draining a body: `merged_body = ""; body.each { |chunk| merged_body += chunk }`,
    as the Net::HTTP and Typhoeus converters do, and the strict String check
    the Rack converters make on every chunk. */
module Bodies {
  import opened Values
  import opened Text

  /** `merged_body + chunk` takes any chunk that converts with #to_str and
      raises TypeError for any other. */
  function ChunkString(chunk: Value): (r: Result<string>)
    ensures r.Ok? <==> RespondsToStr(chunk)
    ensures r.Err? ==> r.error == Error(TypeError, ChunkNotString)
  {
    if RespondsToStr(chunk) then Ok(ToStr(chunk)) else TypeErr(ChunkNotString)
  }

  /** The merge of a sequence of chunks: their concatenation, or the error
      of the first chunk that is not a String. */
  function MergeChunks(chunks: seq<Value>): (r: Result<string>)
    ensures r.Ok? <==> forall i :: 0 <= i < |chunks| ==> RespondsToStr(chunks[i])
    ensures r.Err? ==> r.error == Error(TypeError, ChunkNotString)
  {
    if chunks == [] then Ok("")
    else
      var merged :- MergeChunks(chunks[..|chunks| - 1]);
      var last :- ChunkString(chunks[|chunks| - 1]);
      Ok(merged + last)
  }

  /** The strings the chunks convert to. */
  function ChunkTexts(chunks: seq<Value>): (r: seq<string>)
    requires forall i :: 0 <= i < |chunks| ==> RespondsToStr(chunks[i])
    ensures |r| == |chunks|
    ensures forall i :: 0 <= i < |chunks| ==> r[i] == ToStr(chunks[i])
  {
    seq(|chunks|, i requires 0 <= i < |chunks| => ToStr(chunks[i]))
  }

  /** Draining a body; a body without #each raises NoMethodError. */
  function MergedBody(body: Value): (r: Result<string>)
    ensures !RespondsToEach(body) ==> r == Err(Error(Raised("NoMethodError"), Message("each")))
    ensures RespondsToEach(body) ==> r == MergeChunks(Each(body))
  {
    if !RespondsToEach(body) then Err(Error(Raised("NoMethodError"), Message("each")))
    else MergeChunks(Each(body))
  }

  /** The merged body is the in-order concatenation of the chunks' strings. */
  lemma {:induction false} MergeChunksConcat(chunks: seq<Value>)
    requires forall i :: 0 <= i < |chunks| ==> RespondsToStr(chunks[i])
    ensures MergeChunks(chunks) == Ok(Concat(ChunkTexts(chunks)))
  {
    if chunks != [] {
      var init := chunks[..|chunks| - 1];
      MergeChunksConcat(init);
      assert ChunkTexts(chunks)[..|chunks| - 1] == ChunkTexts(init);
    }
  }

  /** A concatenation is empty exactly when every part is. */
  lemma {:induction false} ConcatEmpty(parts: seq<string>)
    ensures Concat(parts) == "" <==> forall i :: 0 <= i < |parts| ==> parts[i] == ""
  {
    if parts != [] {
      ConcatEmpty(parts[..|parts| - 1]);
      assert |Concat(parts)| == |Concat(parts[..|parts| - 1])| + |parts[|parts| - 1]|;
      if Concat(parts) == "" {
        forall i | 0 <= i < |parts| ensures parts[i] == "" {
          if i < |parts| - 1 { assert parts[i] == parts[..|parts| - 1][i]; }
        }
      }
    }
  }

  /** Concatenation distributes over appending sequences of parts. */
  lemma {:induction false} ConcatAppend(a: seq<string>, b: seq<string>)
    ensures Concat(a + b) == Concat(a) + Concat(b)
  {
    if b != [] {
      ConcatAppend(a, b[..|b| - 1]);
      assert (a + b)[..|a + b| - 1] == a + b[..|b| - 1];
    } else {
      assert a + b == a;
    }
  }

  /** A body of exactly one String chunk merges to that string: the shape
      every native-to-tuple conversion produces. */
  lemma MergeSingle(s: string)
    ensures MergedBody(Arr([Str(s)])) == Ok(s)
  {
    MergeChunksConcat([Str(s)]);
    assert ChunkTexts([Str(s)]) == [s];
    assert [s][..0] == [];
    assert Concat([s]) == s;
  }

  /** Draining a body in the way the source does: a loop that appends each
      chunk to the merged string. */
  method MergeBody(body: Value) returns (r: Result<string>)
    ensures r == MergedBody(body)
  {
    if !RespondsToEach(body) {
      return Err(Error(Raised("NoMethodError"), Message("each")));
    }
    var chunks := Each(body);
    var merged := "";
    var i := 0;
    while i < |chunks|
      invariant 0 <= i <= |chunks|
      invariant MergeChunks(chunks[..i]) == Ok(merged)
    {
      assert chunks[..i + 1][..i] == chunks[..i];
      var chunk := chunks[i];
      if !RespondsToStr(chunk) {
        ChunkErrorStops(chunks, i);
        return TypeErr(ChunkNotString);
      }
      merged := merged + ToStr(chunk);
      i := i + 1;
    }
    assert chunks[..i] == chunks;
    r := Ok(merged);
  }

  /** Once a chunk fails to convert, the whole merge fails with its error. */
  lemma ChunkErrorStops(chunks: seq<Value>, i: int)
    requires 0 <= i < |chunks| && !RespondsToStr(chunks[i])
    ensures MergeChunks(chunks) == TypeErr(ChunkNotString)
  {
  }

  /** Every chunk must be a String (not merely convertible to one); the
      first one that is not raises TypeError. */
  function StrictChunks(chunks: seq<Value>): (r: Result<seq<string>>)
    ensures r.Ok? <==> forall i :: 0 <= i < |chunks| ==> chunks[i].Str?
    ensures r.Ok? ==> |r.value| == |chunks| && forall i :: 0 <= i < |chunks| ==> chunks[i] == Str(r.value[i])
    ensures r.Err? ==> r.error == Error(TypeError, ChunkNotString)
  {
    if chunks == [] then Ok([])
    else
      var init :- StrictChunks(chunks[..|chunks| - 1]);
      var last := chunks[|chunks| - 1];
      if !last.Str? then TypeErr(ChunkNotString)
      else Ok(init + [last.s])
  }
}
