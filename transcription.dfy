/**
 * The speech-to-text post-filter and the lazily loaded Whisper model
 * (app/transcription.py). Inference itself is outside the model: what the
 * model produced for a clip is a parameter.
 */
module Transcription {
  import opened Wrappers
  import opened Strings

  /** One timed segment of model output: its confidence and its raw text. */
  datatype Segment = Segment(avgLogprob: real, text: string)

  /** Segments whose average log-probability is strictly below this are "unsure". */
  const ConfidenceFloor: real := -1.0

  /** Known filler phrases the model hallucinates on silent audio, compared lower-cased. */
  const Hallucinations: seq<string> := ["you", "thank you", "thanks", "subtitle by", "watching", "."]

  /** Whether a segment's stripped text is appended to the transcript. */
  predicate Survives(seg: Segment)
  {
    var text := Strip(seg.text);
    !(seg.avgLogprob < ConfidenceFloor) && Lower(text) !in Hallucinations && |text| > 0
  }

  /** The stripped texts of the surviving segments, in segment order. */
  function Survivors(segments: seq<Segment>): seq<string>
  {
    if segments == [] then []
    else
      var last := segments[|segments| - 1];
      Survivors(segments[..|segments| - 1]) + (if Survives(last) then [Strip(last.text)] else [])
  }

  /** The transcript a completed inference yields: the survivors joined by single spaces. */
  function Transcript(segments: seq<Segment>): string
  {
    JoinSpaces(Survivors(segments))
  }

  /** Filtering distributes over concatenation, so segment order is kept and nothing moves. */
  lemma {:induction false} SurvivorsAppend(a: seq<Segment>, b: seq<Segment>)
    ensures Survivors(a + b) == Survivors(a) + Survivors(b)
  {
    if b == [] {
      assert a + b == a;
    } else {
      var b' := b[..|b| - 1];
      assert (a + b)[..|a + b| - 1] == a + b';
      SurvivorsAppend(a, b');
    }
  }

  /** A single segment contributes its stripped text if it survives and nothing otherwise. */
  lemma SurvivorsSingle(seg: Segment)
    ensures Survivors([seg]) == if Survives(seg) then [Strip(seg.text)] else []
  {
    assert [seg][..0] == [];
  }

  /** `piece` is the stripped text of some surviving segment. */
  predicate FromSurvivor(segments: seq<Segment>, piece: string)
  {
    exists j :: 0 <= j < |segments| && Survives(segments[j]) && piece == Strip(segments[j].text)
  }

  /**
   * Nothing spurious: every piece of the transcript is non-empty, has no
   * surrounding whitespace, is not a denylisted phrase in any letter case,
   * and is the stripped text of a segment that survives.
   */
  lemma {:induction false} SurvivorsClean(segments: seq<Segment>)
    ensures forall k :: 0 <= k < |Survivors(segments)| ==>
      var piece := Survivors(segments)[k];
      piece != [] && Trimmed(piece) && Lower(piece) !in Hallucinations
    ensures forall k :: 0 <= k < |Survivors(segments)| ==> FromSurvivor(segments, Survivors(segments)[k])
  {
    if segments != [] {
      var init := segments[..|segments| - 1];
      var last := segments[|segments| - 1];
      SurvivorsClean(init);
      var all := Survivors(segments);
      assert all == Survivors(init) + (if Survives(last) then [Strip(last.text)] else []);
      forall k | 0 <= k < |all|
        ensures all[k] != [] && Trimmed(all[k]) && Lower(all[k]) !in Hallucinations
        ensures FromSurvivor(segments, all[k])
      {
        if k < |Survivors(init)| {
          assert all[k] == Survivors(init)[k];
          assert FromSurvivor(init, Survivors(init)[k]);
          var j :| 0 <= j < |init| && Survives(init[j]) && Survivors(init)[k] == Strip(init[j].text);
          assert segments[j] == init[j];
          assert all[k] == Strip(segments[j].text) && Survives(segments[j]);
        } else {
          var j := |segments| - 1;
          assert all[k] == Strip(segments[j].text) && Survives(segments[j]);
        }
      }
    }
  }

  /** No piece at all exactly when no segment survives. */
  lemma {:induction false} SurvivorsEmpty(segments: seq<Segment>)
    ensures Survivors(segments) == [] <==> forall j :: 0 <= j < |segments| ==> !Survives(segments[j])
  {
    if segments != [] {
      var init := segments[..|segments| - 1];
      var last := segments[|segments| - 1];
      SurvivorsEmpty(init);
      assert Survivors(segments) == Survivors(init) + (if Survives(last) then [Strip(last.text)] else []);
      if Survivors(segments) == [] {
        forall j | 0 <= j < |segments| ensures !Survives(segments[j]) {
          if j < |init| {
            assert segments[j] == init[j];
          }
        }
      } else if Survivors(init) == [] {
        assert Survives(last);
      } else {
        var j :| 0 <= j < |init| && Survives(init[j]);
        assert segments[j] == init[j];
      }
    }
  }

  /** The transcript is empty exactly when no segment survives. */
  lemma TranscriptEmpty(segments: seq<Segment>)
    ensures Transcript(segments) == "" <==> forall j :: 0 <= j < |segments| ==> !Survives(segments[j])
  {
    SurvivorsClean(segments);
    SurvivorsEmpty(segments);
    JoinSpacesEnds(Survivors(segments));
  }

  /** The transcript never begins or ends with whitespace. */
  lemma TranscriptTrimmed(segments: seq<Segment>)
    ensures Trimmed(Transcript(segments))
  {
    SurvivorsClean(segments);
    JoinSpacesTrimmed(Survivors(segments));
  }

  /**
   * Order: the transcript of two consecutive runs of segments is the first
   * run's transcript, one space, then the second's (when both are non-empty).
   */
  lemma TranscriptAppend(a: seq<Segment>, b: seq<Segment>)
    ensures Transcript(a + b) ==
      if Transcript(a) == "" then Transcript(b)
      else if Transcript(b) == "" then Transcript(a)
      else Transcript(a) + " " + Transcript(b)
  {
    SurvivorsAppend(a, b);
    SurvivorsClean(a);
    SurvivorsClean(b);
    JoinSpacesEnds(Survivors(a));
    JoinSpacesEnds(Survivors(b));
    if Survivors(a) == [] {
      assert Survivors(a + b) == Survivors(b);
    } else if Survivors(b) == [] {
      assert Survivors(a + b) == Survivors(a);
    } else {
      JoinSpacesAppend(Survivors(a), Survivors(b));
    }
  }

  /** A text whose length is that of no denylisted phrase is never denylisted. */
  lemma NotDenylistedByLength(text: string)
    requires |text| !in {1, 3, 6, 8, 9, 11}
    ensures Lower(text) !in Hallucinations
  {
  }

  /** Every denylisted phrase is plain lower-case text. */
  lemma HallucinationsPlain()
    ensures forall h :: h in Hallucinations ==> PlainLower(h)
  {
  }

  /**
   * The denylist test is an exact match that ignores letter case: a stripped
   * text is dropped exactly when it spells some denylisted phrase up to case.
   */
  lemma DenylistMatch(text: string)
    ensures Lower(text) in Hallucinations <==> exists h :: h in Hallucinations && SameIgnoringCase(text, h)
  {
    HallucinationsPlain();
    if Lower(text) in Hallucinations {
      LowerMatches(text, Lower(text));
    }
    forall h | h in Hallucinations && SameIgnoringCase(text, h)
      ensures Lower(text) in Hallucinations
    {
      LowerMatches(text, h);
    }
  }

  /** An unsure "you" leaves an empty transcript (ThresholdIsStrict shows confidence alone deciding). */
  lemma UnsureSegmentDropped()
    ensures Transcript([Segment(-1.5, "you")]) == ""
  {
    SurvivorsSingle(Segment(-1.5, "you"));
  }

  /** A confident clinical sentence comes through exactly. */
  lemma ConfidentSentenceKept()
    ensures Transcript([Segment(-0.2, "The patient reports mild fever")]) == "The patient reports mild fever"
  {
    var text := "The patient reports mild fever";
    StripTrimmed(text);
    NotDenylistedByLength(text);
    SurvivorsSingle(Segment(-0.2, text));
  }

  /** The denylist match ignores letter case... */
  lemma DenylistIgnoresCase()
    ensures !Survives(Segment(0.0, " Thank You"))
  {
    assert Strip(" Thank You") == Strip(" Thank You"[1..]);
    assert Strip(" Thank You") == "Thank You";
    assert Lower("Thank You") == "thank you";
  }

  /** ...but is exact: a denylisted phrase inside a longer text does not remove it. */
  lemma DenylistIsExact()
    ensures Survives(Segment(0.0, " thank you doctor"))
  {
    assert Strip(" thank you doctor") == Strip(" thank you doctor"[1..]);
    assert Strip(" thank you doctor") == "thank you doctor";
    NotDenylistedByLength("thank you doctor");
  }

  /** The confidence threshold is strict: exactly -1.0 is still eligible. */
  lemma ThresholdIsStrict()
    ensures Survives(Segment(-1.0, " cough")) && !Survives(Segment(-1.01, " cough"))
  {
    assert Strip(" cough") == Strip(" cough"[1..]);
    assert Strip(" cough") == "cough";
    NotDenylistedByLength("cough");
  }

  /**
   * The filter loop: walks the segments in order and collects the stripped
   * text of each one that survives.
   */
  method FilterSegments(segments: seq<Segment>) returns (validTexts: seq<string>)
    ensures validTexts == Survivors(segments)
  {
    validTexts := [];
    for i := 0 to |segments|
      invariant validTexts == Survivors(segments[..i])
    {
      var segment := segments[i];
      assert segments[..i + 1][..i] == segments[..i];
      if segment.avgLogprob < ConfidenceFloor {
        continue;
      }
      var text := Strip(segment.text);
      if Lower(text) in Hallucinations {
        continue;
      }
      if |text| > 0 {
        validTexts := validTexts + [text];
      }
    }
    assert segments[..|segments|] == segments;
  }

  /** The handle `WhisperModel("tiny", device="cpu", compute_type="int8")` builds. */
  datatype WhisperModel = WhisperModel(size: string, device: string, computeType: string)

  const TinyCpuInt8: WhisperModel := WhisperModel("tiny", "cpu", "int8")

  /**
   * What `model.transcribe(file_path, ...)` did for one clip: it produced
   * these segments, or it raised (while loading the audio or while the
   * segment generator was being consumed; both are caught alike).
   */
  datatype Inference = Segments(segments: seq<Segment>) | Raised

  /** The model after one `get_model()` call, given whether constructing it would succeed. */
  function AfterGetModel(cached: Option<WhisperModel>, loadSucceeds: bool): Option<WhisperModel>
  {
    if cached.Some? then cached else if loadSucceeds then Some(TinyCpuInt8) else None
  }

  /** The module state: the cached model and the files present on disk. */
  class Transcriber {
    var model: Option<WhisperModel>
    ghost var files: set<string>

    constructor (onDisk: set<string>)
      ensures model == None && files == onDisk
    {
      model := None;
      files := onDisk;
    }

    /**
     * `get_model()`: a one-slot lazy cache. A cached model is returned without
     * reloading; a failed load caches nothing, so the next call tries again.
     */
    method GetModel(loadSucceeds: bool) returns (m: Option<WhisperModel>)
      modifies this`model
      ensures m == model == AfterGetModel(old(model), loadSucceeds)
      ensures old(model).Some? ==> m == old(model)
      ensures old(model).None? && !loadSucceeds ==> m == None && model == None
    {
      if model.None? {
        if !loadSucceeds {
          return None;
        }
        model := Some(TinyCpuInt8);
      }
      m := model;
    }

    /**
     * `transcribe_audio_chunk(file_path)`: the cleaned transcript, or "" when
     * no model is available or inference raised. Once a model is available the
     * `finally` block removes the clip, unless `os.remove` fails (`removeSucceeds`
     * is false), whose error is swallowed; the early return for a missing model
     * happens before that block, so that path leaves the clip on disk.
     */
    method TranscribeAudioChunk(filePath: string, loadSucceeds: bool, inference: Inference, removeSucceeds: bool)
      returns (text: string)
      modifies this
      ensures model == AfterGetModel(old(model), loadSucceeds)
      ensures text == match inference
        case Segments(segments) => if model.Some? then Transcript(segments) else ""
        case Raised => ""
      ensures files == if model.Some? && removeSucceeds then old(files) - {filePath} else old(files)
    {
      var m := GetModel(loadSucceeds);
      if m.None? {
        return "";
      }
      match inference {
        case Raised =>
          text := "";
        case Segments(segments) =>
          var validTexts := FilterSegments(segments);
          text := JoinSpaces(validTexts);
      }
      if removeSucceeds {
        files := files - {filePath};
      }
    }
  }
}
