/** What the output of a whole run of the compression pipeline means. */
module PipelineMeaning {
  import opened Options
  import opened Bits
  import opened Format
  import P = Pipeline
  import PipelineFlags
  import PipelineSafety
  import PipelineRuns
  import J = Join

  function Flags(out: seq<P.Written>): (f: seq<bool>)
    ensures |f| == |out|
  {
    seq(|out|, i requires 0 <= i < |out| => out[i].final)
  }

  /** The chunks that were written, in the order of the output. */
  function Chosen(chunks: seq<J.Chunk>, out: seq<P.Written>): (r: seq<J.Chunk>)
    ensures |r| == |out|
  {
    seq(|out|, i requires 0 <= i < |out| =>
      if out[i].index < |chunks| then chunks[out[i].index] else J.Chunk([], Layout(0, 0), 0, false))
  }

  /** The chunks are what the run compressed: sound, one for each piece of input, none of them empty. */
  ghost predicate Compresses(c: P.Config, chunks: seq<J.Chunk>) {
    && J.AllSound(chunks) && |chunks| == |c.chunks|
    && forall i :: 0 <= i < |chunks| ==> chunks[i].rawLen == c.chunks[i].raw > 0
  }

  /** The output is a beginning of the input's chunks. */
  lemma ChosenIsPrefix(c: P.Config, run: seq<P.Step>, s: P.State, chunks: seq<J.Chunk>)
    requires P.Reaches(c, run, s) && Compresses(c, chunks)
    ensures |s.out| <= |chunks| && Chosen(chunks, s.out) == chunks[..|s.out|] && J.AllSound(Chosen(chunks, s.out))
  {
    hide P.Reaches, PipelineSafety.Safe, J.Sound;
    PipelineRuns.SafeOnEveryRun(c, run, s);
    PipelineRuns.WrittenInOrder(c, s);
  }

  lemma {:induction false} ContentsOfPrefix(chunks: seq<J.Chunk>, k: nat, m: nat)
    requires k <= m <= |chunks| && J.AllSound(chunks)
    ensures J.AllSound(chunks[..m]) && J.Contents(chunks[..m], k) == J.Contents(chunks, k)
  {
    hide J.Sound, J.Content;
    if k > 0 {
      ContentsOfPrefix(chunks, k - 1, m);
    }
  }

  /** What the writer delivers for its output: the joined chunks completed to a byte, or, when it has written no chunk,
      the compressed empty input. */
  ghost predicate Delivers(chunks: seq<J.Chunk>, out: seq<P.Written>, stream: Bits)
    requires J.AllSound(Chosen(chunks, out))
  {
    if out == [] then Inflate(stream).Some? && Inflate(stream).value.out == []
    else exists pad: nat :: pad < 8 && stream == J.Joined(Chosen(chunks, out), Flags(out), |out|) + Zeros(pad)
  }

  /** The stream decompresses to the whole input. */
  ghost predicate Means(chunks: seq<J.Chunk>, stream: Bits)
    requires J.AllSound(chunks)
  {
    Inflate(stream).Some? && Inflate(stream).value.out == J.Contents(chunks, |chunks|)
  }

  /** What a run delivers decompresses to the whole input exactly when every chunk has been written and the last one
      alone is flagged final. */
  lemma OutputMeansInputIff(c: P.Config, run: seq<P.Step>, s: P.State, chunks: seq<J.Chunk>, stream: Bits)
    requires P.Reaches(c, run, s) && Compresses(c, chunks)
    ensures J.AllSound(Chosen(chunks, s.out))
    ensures Delivers(chunks, s.out, stream) ==>
              (Means(chunks, stream) <==> |s.out| == |chunks| && Flags(s.out) == J.LastOnly(|chunks|))
  {
    hide P.Reaches, J.Sound, J.WellPlaced, J.Joined, J.Contents, Inflate;
    ChosenIsPrefix(c, run, s, chunks);
    if s.out == [] {
      NothingMeansNothing(chunks);
    } else if Delivers(chunks, s.out, stream) {
      var pad: nat :| pad < 8 && stream == J.Joined(Chosen(chunks, s.out), Flags(s.out), |s.out|) + Zeros(pad);
      JoinedMeansIff(chunks, s.out, pad);
    }
  }

  lemma NothingMeansNothing(chunks: seq<J.Chunk>)
    requires J.AllSound(chunks) && forall x :: x in chunks ==> x.rawLen > 0
    ensures J.Contents(chunks, |chunks|) == [] <==> chunks == []
  {
    hide J.Sound, J.WellPlaced, J.Content;
    if chunks != [] {
      assert chunks[|chunks| - 1] in chunks;
      assert |J.Content(chunks[|chunks| - 1])| > 0;
    }
  }

  lemma JoinedMeansIff(chunks: seq<J.Chunk>, out: seq<P.Written>, pad: nat)
    requires J.AllSound(chunks) && 0 < |out| <= |chunks| && Chosen(chunks, out) == chunks[..|out|] && pad < 8
    requires forall x :: x in chunks ==> x.rawLen > 0
    ensures J.AllSound(Chosen(chunks, out))
    ensures Means(chunks, J.Joined(Chosen(chunks, out), Flags(out), |out|) + Zeros(pad))
            <==> |out| == |chunks| && Flags(out) == J.LastOnly(|chunks|)
  {
    hide J.Sound, J.WellPlaced, J.Joined, J.Contents, Inflate;
    if |out| == |chunks| {
      assert Chosen(chunks, out) == chunks;
      J.JoinMeaningIff(chunks, Flags(out), pad);
    } else {
      PartMeansLess(chunks, |out|, Flags(out), pad);
    }
  }

  /** Some of the chunks, under any flags, never decompress to all of them. */
  lemma PartMeansLess(chunks: seq<J.Chunk>, n: nat, finals: seq<bool>, pad: nat)
    requires J.AllSound(chunks) && 0 < n < |chunks| && |finals| == n && pad < 8
    requires forall x :: x in chunks ==> x.rawLen > 0
    ensures J.AllSound(chunks[..n]) && forall x :: x in chunks[..n] ==> J.WellPlaced(x)
    ensures var r := Inflate(J.Joined(chunks[..n], finals, n) + Zeros(pad));
            r.Some? ==> r.value.out != J.Contents(chunks, |chunks|)
  {
    hide J.Sound, J.WellPlaced, J.Joined, J.Contents, Inflate;
    var part := chunks[..n];
    forall x | x in part
      ensures J.WellPlaced(x)
    {
      J.SoundIsWellPlaced(x);
    }
    var t := J.Joined(part, finals, n) + Zeros(pad);
    if f: nat :| f < n && finals[f] && forall i :: 0 <= i < f ==> !finals[i] {
      J.JoinedPrefix(part, finals, f + 1, n);
      J.JoinEndsAtFirstFinal(part, finals, f, t);
      ContentsOfPrefix(chunks, f + 1, n);
      J.ContentsGrow(chunks, f + 1, |chunks|);
    } else {
      J.NoFirst(finals, n);
      J.JoinNeverEnds(part, finals, pad);
    }
  }

  // ---- Which options give a stream that means the input ------------------------------------------

  /** The writer has left, and whatever it delivers means the input. */
  ghost predicate Delivered(c: P.Config, s: P.State, chunks: seq<J.Chunk>)
    requires J.AllSound(chunks)
  {
    && s.writer.Exited? && J.AllSound(Chosen(chunks, s.out))
    && forall stream :: Delivers(chunks, s.out, stream) ==> Means(chunks, stream)
  }

  lemma RightIsLastOnly(c: P.Config, s: P.State)
    requires s.writer.Exited?
    ensures PipelineFlags.Right(c, s) <==> |s.out| == |c.chunks| && Flags(s.out) == J.LastOnly(|c.chunks|)
  {
    if |s.out| == |c.chunks| {
      forall k | 0 <= k < |s.out|
        ensures Flags(s.out)[k] == s.out[k].final && J.LastOnly(|c.chunks|)[k] == (k == |c.chunks| - 1)
      {
      }
    }
  }

  /** A run is right exactly when what it delivers means the input. */
  lemma RightMeans(c: P.Config, run: seq<P.Step>, s: P.State, chunks: seq<J.Chunk>)
    requires P.Reaches(c, run, s) && Compresses(c, chunks) && s.writer.Exited?
    ensures PipelineFlags.Right(c, s) ==> Delivered(c, s, chunks)
    ensures s.out != [] && Delivered(c, s, chunks) ==> PipelineFlags.Right(c, s)
  {
    hide P.Reaches, J.Sound, J.WellPlaced, J.Joined, Means, Delivers, PipelineFlags.Right;
    RightIsLastOnly(c, s);
    ChosenIsPrefix(c, run, s, chunks);
    forall stream | Delivers(chunks, s.out, stream)
      ensures PipelineFlags.Right(c, s) <==> Means(chunks, stream)
    {
      OutputMeansInputIff(c, run, s, chunks, stream);
    }
    if s.out != [] {
      SomethingDelivered(chunks, s.out);
    }
  }

  lemma SomethingDelivered(chunks: seq<J.Chunk>, out: seq<P.Written>)
    requires J.AllSound(Chosen(chunks, out)) && out != []
    ensures exists stream :: Delivers(chunks, out, stream)
  {
    hide J.Sound, J.WellPlaced, J.Joined, Inflate;
    var stream := J.Joined(Chosen(chunks, out), Flags(out), |out|) + Zeros(0);
    assert Delivers(chunks, out, stream);
  }

  /** Under serial limits the output of a finished run on non-empty input is never a DEFLATE stream. */
  lemma SerialNeverMeans(c: P.Config, run: seq<P.Step>, s: P.State, chunks: seq<J.Chunk>, stream: Bits)
    requires PipelineFlags.Serial(c) && |c.chunks| > 0
    requires P.Reaches(c, run, s) && Compresses(c, chunks) && s.writer.Exited?
    ensures J.AllSound(Chosen(chunks, s.out)) && (Delivers(chunks, s.out, stream) ==> Inflate(stream) == None)
  {
    hide P.Reaches, J.Sound, J.WellPlaced, J.Joined, Inflate, PipelineFlags.Serial;
    ChosenIsPrefix(c, run, s, chunks);
    PipelineFlags.SerialOnEveryRun(c, run, s);
    if Delivers(chunks, s.out, stream) {
      var pad: nat :| pad < 8 && stream == J.Joined(Chosen(chunks, s.out), Flags(s.out), |s.out|) + Zeros(pad);
      J.JoinNeverEnds(Chosen(chunks, s.out), Flags(s.out), pad);
    }
  }

  /** Some run delivers a stream that means the input exactly when the limits are not serial or there is no input. */
  lemma SomeRunMeansIff(c: P.Config, chunks: seq<J.Chunk>)
    requires c.Valid() && Compresses(c, chunks)
    ensures (exists run, s :: P.Reaches(c, run, s) && Delivered(c, s, chunks))
            <==> |c.chunks| == 0 || !PipelineFlags.Serial(c)
  {
    hide P.Reaches, Delivered, J.Sound, J.WellPlaced, P.Config.Valid, PipelineFlags.Serial, PipelineFlags.Right;
    PipelineFlags.RightIff(c);
    if |c.chunks| == 0 || !PipelineFlags.Serial(c) {
      var run, s :| P.Reaches(c, run, s) && PipelineFlags.Right(c, s);
      RightHasLeft(c, s);
      RightMeans(c, run, s, chunks);
    } else {
      forall run, s | P.Reaches(c, run, s)
        ensures !Delivered(c, s, chunks)
      {
        if s.writer.Exited? {
          PipelineFlags.SerialOnEveryRun(c, run, s);
          WritesSomething(c, s);
          RightMeans(c, run, s, chunks);
        } else {
          NotDelivered(c, s, chunks);
        }
      }
    }
  }

  lemma RightHasLeft(c: P.Config, s: P.State)
    requires PipelineFlags.Right(c, s)
    ensures s.writer.Exited?
  {
  }

  lemma NotDelivered(c: P.Config, s: P.State, chunks: seq<J.Chunk>)
    requires Compresses(c, chunks) && !s.writer.Exited?
    ensures !Delivered(c, s, chunks)
  {
  }

  lemma WritesSomething(c: P.Config, s: P.State)
    requires |c.chunks| > 0 && s.writer.Exited? && !PipelineFlags.Lost(c, s)
    ensures s.out != []
  {
  }
}
