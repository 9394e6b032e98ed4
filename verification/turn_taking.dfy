/** Turn taking in live recognition: each utterance is transcribed, the
    transcription is normalised, and every non-empty one becomes a record
    for the current speaker, who then hands over to the other speaker. */
module TurnTaking {
  import opened Wrappers
  import opened Text

  /** What the speech engine returns for one utterance; either key may be
      missing. */
  datatype RawTranscript = RawTranscript(language: Option<string>, text: Option<string>)

  /** The normalised transcription: a language code and stripped text. */
  datatype Transcript = Transcript(language: string, text: string)

  /** `detect_language_and_transcribe_from_base64` after the engine call:
      a missing language becomes "unknown", a missing text becomes empty,
      and the text is stripped. */
  function Normalize(raw: RawTranscript): (t: Transcript)
    ensures t.language == raw.language.GetOr("unknown")
    ensures raw.text.None? ==> t.text == []
  {
    Transcript(raw.language.GetOr("unknown"), Strip(raw.text.GetOr([])))
  }

  /** The normalised text has no surrounding whitespace, is empty exactly
      for a missing or blank text, and a transcription that is already
      normalised goes through unchanged. */
  lemma NormalizeSpec(raw: RawTranscript)
    ensures IsStripped(Normalize(raw).text)
    ensures Normalize(raw).text == [] <==> AllIn(raw.text.GetOr([]), Whitespace)
    ensures var t := Normalize(raw);
            Normalize(RawTranscript(Some(t.language), Some(t.text))) == t
  {
    StripSpec(raw.text.GetOr([]));
    StripSpec(Normalize(raw).text);
  }

  /** One pass of the recognition loop, as seen by the turn logic. */
  datatype Attempt =
    | RecordingFailed                                 // the microphone read raised
    | RecognitionFailed                               // conversion or transcription raised
    | Heard(timestamp: string, raw: RawTranscript)    // the engine answered

  /** One emitted result. */
  datatype Record = Record(timestamp: string, speaker: string, lang: string, text: string)

  /** `f"Speaker {speaker_id}"`. */
  function SpeakerLabel(id: nat): (s: string)
    ensures |s| > 8 && s[..8] == "Speaker "
    ensures AllDigits(s[8..]) && DecimalValue(s[8..]) == id
  {
    "Speaker " + NatToDecimal(id)
  }

  /** Speaker 1 and speaker 2 get different labels. */
  lemma SpeakerLabelsDiffer()
    ensures SpeakerLabel(1) != SpeakerLabel(2)
  {
    assert DecimalValue(SpeakerLabel(1)[8..]) != DecimalValue(SpeakerLabel(2)[8..]);
  }

  /** The loop state: the current speaker and the results so far. */
  datatype Turns = Turns(speaker: nat, results: seq<Record>)

  /** The loop starts with speaker 1 and no results. */
  const Begin := Turns(1, [])

  /** 2 after 1, 1 after anything else. */
  function Other(id: nat): (o: nat)
    ensures o == 1 || o == 2
    ensures id == 1 <==> o == 2
  {
    if id == 1 then 2 else 1
  }

  /** One pass: a non-empty transcription emits a record for the current
      speaker and hands the turn over; silence and both kinds of error
      leave the state as it was. */
  function Step(s: Turns, a: Attempt): (s': Turns)
    ensures a.RecordingFailed? || a.RecognitionFailed? ==> s' == s
    ensures a.Heard? && Normalize(a.raw).text == [] ==> s' == s
    ensures a.Heard? && Normalize(a.raw).text != [] ==>
              s'.speaker == Other(s.speaker) &&
              s'.results == s.results + [Record(a.timestamp, SpeakerLabel(s.speaker),
                                                Normalize(a.raw).language, Normalize(a.raw).text)]
  {
    match a
    case Heard(timestamp, raw) =>
      var t := Normalize(raw);
      if t.text != [] then
        Turns(Other(s.speaker), s.results + [Record(timestamp, SpeakerLabel(s.speaker), t.language, t.text)])
      else s
    case _ => s
  }

  /** The loop over a whole session, from the start state. */
  function Run(attempts: seq<Attempt>): (s: Turns)
    ensures s.speaker == 1 || s.speaker == 2
    ensures |s.results| <= |attempts|
    decreases |attempts|
  {
    if attempts == [] then Begin
    else Step(Run(attempts[..|attempts| - 1]), attempts[|attempts| - 1])
  }

  /** The utterances that count: the answered attempts whose normalised
      text is not empty, in order. */
  function Spoken(attempts: seq<Attempt>): (hs: seq<(string, Transcript)>)
    ensures forall k :: 0 <= k < |hs| ==> hs[k].1.text != []
    decreases |attempts|
  {
    if attempts == [] then []
    else
      var rest := Spoken(attempts[..|attempts| - 1]);
      var a := attempts[|attempts| - 1];
      if a.Heard? && Normalize(a.raw).text != [] then rest + [(a.timestamp, Normalize(a.raw))]
      else rest
  }

  /** The speaker who holds the `n`-th turn, counting from 0. */
  function SpeakerAt(n: nat): (id: nat)
    ensures id == 1 || id == 2
  {
    if n % 2 == 0 then 1 else 2
  }

  /** The state `s` records the utterances `hs`: one record each, in
      order, the `k`-th attributed to speaker 1 when `k` is even and to
      speaker 2 when it is odd, and the turn is with the next speaker. */
  predicate Records(s: Turns, hs: seq<(string, Transcript)>) {
    |s.results| == |hs| &&
    s.speaker == SpeakerAt(|hs|) &&
    forall k :: 0 <= k < |hs| ==>
      s.results[k] == Record(hs[k].0, SpeakerLabel(SpeakerAt(k)), hs[k].1.language, hs[k].1.text)
  }

  /** One pass keeps `Records`, extended by the utterance it hears. */
  lemma StepRecords(s: Turns, hs: seq<(string, Transcript)>, a: Attempt)
    requires Records(s, hs)
    ensures a.Heard? && Normalize(a.raw).text != [] ==>
              Records(Step(s, a), hs + [(a.timestamp, Normalize(a.raw))])
    ensures !(a.Heard? && Normalize(a.raw).text != []) ==> Records(Step(s, a), hs)
  {
    SpeakerAtNext(|hs|);
  }

  /** After a session the results are exactly the spoken utterances, in
      order, the `k`-th one attributed to speaker 1 when `k` is even and to
      speaker 2 when it is odd; the current speaker is 1 exactly when the
      number of results is even. */
  lemma {:induction false} RunSpec(attempts: seq<Attempt>)
    ensures Records(Run(attempts), Spoken(attempts))
    decreases |attempts|
  {
    if attempts != [] {
      var p := attempts[..|attempts| - 1];
      RunSpec(p);
      StepRecords(Run(p), Spoken(p), attempts[|attempts| - 1]);
    }
  }

  /** The turn passes to the other speaker with every record. */
  lemma SpeakerAtNext(n: nat)
    ensures SpeakerAt(n + 1) == Other(SpeakerAt(n))
  {
  }

  /** Consecutive records always come from different speakers. */
  lemma Alternates(attempts: seq<Attempt>)
    ensures var rs := Run(attempts).results;
            forall k :: 0 <= k < |rs| - 1 ==> rs[k].speaker != rs[k + 1].speaker
  {
    RunSpec(attempts);
    SpeakerLabelsDiffer();
    var rs := Run(attempts).results;
    forall k | 0 <= k < |rs| - 1 ensures rs[k].speaker != rs[k + 1].speaker {
      SpeakerAtNext(k);
    }
  }

  /** A failed pass anywhere in a session changes nothing. */
  lemma FailuresIgnored(before: seq<Attempt>, a: Attempt, after: seq<Attempt>)
    requires a.RecordingFailed? || a.RecognitionFailed?
    ensures Spoken(before + [a] + after) == Spoken(before + after)
    ensures Run(before + [a] + after) == Run(before + after)
  {
    var xs := before + [a] + after;
    var ys := before + after;
    SpokenDrop(before, a, after);
    RunSpec(xs);
    RunSpec(ys);
    RecordsDetermine(Run(xs), Run(ys), Spoken(ys));
  }

  /** Dropping a failed pass does not change the utterances heard. */
  lemma SpokenDrop(before: seq<Attempt>, a: Attempt, after: seq<Attempt>)
    requires !a.Heard?
    ensures Spoken(before + [a] + after) == Spoken(before + after)
  {
    var b := before + [a];
    SpokenConcat(before, [a]);
    Unheard(a);
    assert Spoken(b) == Spoken(before);
    SpokenConcat(b, after);
    SpokenConcat(before, after);
  }

  /** The records of a set of utterances fix the whole state. */
  lemma RecordsDetermine(s: Turns, t: Turns, hs: seq<(string, Transcript)>)
    requires Records(s, hs) && Records(t, hs)
    ensures s == t
  {
    assert s.results == t.results;
  }

  /** A failed pass on its own contributes no utterance. */
  lemma Unheard(a: Attempt)
    requires !a.Heard?
    ensures Spoken([a]) == []
  {
    assert [a][..0] == [];
  }

  /** `Spoken` distributes over concatenation. */
  lemma {:induction false} SpokenConcat(xs: seq<Attempt>, ys: seq<Attempt>)
    ensures Spoken(xs + ys) == Spoken(xs) + Spoken(ys)
    decreases |ys|
  {
    if ys == [] {
      assert xs + ys == xs;
    } else {
      var p := ys[..|ys| - 1];
      SpokenConcat(xs, p);
      assert (xs + ys)[..|xs + ys| - 1] == xs + p;
      assert (xs + ys)[|xs + ys| - 1] == ys[|ys| - 1];
    }
  }
}
