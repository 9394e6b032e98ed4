/** The emotion collection window: the emotion post-processing applied to
    each classifier result, the `collecting` flag with its buffer, and the
    majority vote taken when the window closes. */
module EmotionWindow {
  import opened Wrappers
  import opened Text
  import opened Dedup

  /** What the face classifier reports for one frame: the per-emotion
      score for "happy" (absent when the classifier gives none) and the
      name of its dominant emotion. */
  datatype Analysis = Analysis(happy: Option<real>, dominant: string)

  /** The emotion of one frame. `None` stands for a classifier call that
      raised. A happy score above 30 overrides the dominant emotion; the
      emotion is then capitalised. */
  function DetectEmotion(a: Option<Analysis>): (emotion: string)
    ensures a.None? ==> emotion == "Unknown"
    ensures a.Some? && a.value.happy.GetOr(0.0) > 30.0 ==> emotion == "Happy"
    ensures a.Some? && a.value.happy.GetOr(0.0) <= 30.0 ==>
              |emotion| == |a.value.dominant| &&
              (emotion != [] ==>
                 emotion[0] == ToUpper(a.value.dominant[0]) &&
                 emotion[1..] == LowerAll(a.value.dominant[1..]))
  {
    match a
    case None => "Unknown"
    case Some(x) =>
      var dominant := if x.happy.GetOr(0.0) > 30.0 then "happy" else x.dominant;
      Capitalize(dominant)
  }

  /** An absent happy score counts as 0, so it never overrides. */
  lemma NoHappyScore(dominant: string)
    ensures DetectEmotion(Some(Analysis(None, dominant))) == Capitalize(dominant)
  {
  }

  // ---------------------------------------------------------------------
  // Majority vote

  /** How often `x` occurs in `xs`, as `Counter(xs)[x]`. */
  function Count(xs: seq<string>, x: string): (n: nat)
    ensures n == multiset(xs)[x]
  {
    if xs == [] then 0
    else
      assert xs == xs[..|xs| - 1] + [xs[|xs| - 1]];
      Count(xs[..|xs| - 1], x) + (if xs[|xs| - 1] == x then 1 else 0)
  }

  /** The keys of `Counter(xs)`, in the order the counter first meets them. */
  function Distinct(xs: seq<string>): (ks: seq<string>)
    ensures NoDups(ks)
    ensures forall x :: x in ks <==> x in xs
    ensures forall k, l :: 0 <= k < l < |ks| ==> FirstIndex(xs, ks[k]) < FirstIndex(xs, ks[l])
  {
    if xs == [] then []
    else
      var p := xs[..|xs| - 1];
      var u := Distinct(p);
      var y := xs[|p|];
      assert forall l :: 0 <= l < |p| ==> p[l] == xs[l];
      assert xs == p + [y];
      FirstIndexExtend(p, y);
      if y in u then u
      else
        assert FirstIndex(p, y) == |p|;
        u + [y]
  }

  /** `max(keys, key=count)`: scanning left to right, a key replaces the
      current best only when its count is strictly greater. */
  function FirstMax(keys: seq<string>, xs: seq<string>): (m: string)
    requires keys != []
    ensures m in keys
    ensures forall k :: k in keys ==> Count(xs, k) <= Count(xs, m)
    ensures exists j :: 0 <= j < |keys| && keys[j] == m &&
              forall i :: 0 <= i < j ==> Count(xs, keys[i]) < Count(xs, m)
  {
    if |keys| == 1 then keys[0]
    else
      var p := keys[..|keys| - 1];
      var best := FirstMax(p, xs);
      var last := keys[|p|];
      assert keys == p + [last];
      if Count(xs, last) > Count(xs, best) then last else best
  }

  /** `get_average_emotion`: "Unknown" for an empty buffer, otherwise
      `Counter(buffer).most_common(1)[0][0]`. */
  function AverageEmotion(buffer: seq<string>): (emotion: string)
    ensures buffer == [] ==> emotion == "Unknown"
    ensures buffer != [] ==> emotion in buffer
  {
    if buffer == [] then "Unknown"
    else FirstMax(Distinct(buffer), buffer)
  }

  /** The reference meaning of the vote, independent of how it is computed:
      `x` occurs, no emotion occurs more often, and every emotion that occurs
      as often as `x` first occurs no earlier than `x`. */
  predicate IsMostCommon(buffer: seq<string>, x: string) {
    x in buffer &&
    (forall y :: y in buffer ==> Count(buffer, y) <= Count(buffer, x)) &&
    (forall y :: y in buffer && Count(buffer, y) == Count(buffer, x) ==>
       FirstIndex(buffer, x) <= FirstIndex(buffer, y))
  }

  /** Two emotions first occurring at the same place are the same emotion. */
  lemma FirstIndexInjective(buffer: seq<string>, x: string, y: string)
    requires x in buffer && y in buffer
    requires FirstIndex(buffer, x) == FirstIndex(buffer, y)
    ensures x == y
  {
    var i :| 0 <= i < |buffer| && buffer[i] == x;
    assert FirstIndex(buffer, x) < |buffer|;
  }

  /** At most one emotion is the most common one: two candidates occur
      equally often, so they first occur at the same place. */
  lemma MostCommonUnique(buffer: seq<string>, x: string, y: string)
    requires IsMostCommon(buffer, x) && IsMostCommon(buffer, y)
    ensures x == y
  {
    FirstIndexInjective(buffer, x, y);
  }

  /** Over keys listed in order of first occurrence, `FirstMax` picks,
      among the keys of maximal count, the one that occurs first. */
  lemma FirstMaxEarliest(keys: seq<string>, xs: seq<string>, y: string)
    requires keys != []
    requires forall k, l :: 0 <= k < l < |keys| ==> FirstIndex(xs, keys[k]) < FirstIndex(xs, keys[l])
    requires y in keys && Count(xs, y) == Count(xs, FirstMax(keys, xs))
    ensures FirstIndex(xs, FirstMax(keys, xs)) <= FirstIndex(xs, y)
  {
    var m := FirstMax(keys, xs);
    var j :| 0 <= j < |keys| && keys[j] == m &&
             forall i :: 0 <= i < j ==> Count(xs, keys[i]) < Count(xs, m);
    var l :| 0 <= l < |keys| && keys[l] == y;
    if l > j {
      assert FirstIndex(xs, keys[j]) < FirstIndex(xs, keys[l]);
    }
  }

  /** For a non-empty buffer the vote returns exactly the most common emotion
      with the earliest first occurrence: it satisfies `IsMostCommon`, and
      nothing else does. */
  lemma AverageEmotionSpec(buffer: seq<string>)
    requires buffer != []
    ensures IsMostCommon(buffer, AverageEmotion(buffer))
    ensures forall x :: IsMostCommon(buffer, x) ==> x == AverageEmotion(buffer)
  {
    var m := AverageEmotion(buffer);
    var ks := Distinct(buffer);
    assert buffer[0] in ks;
    assert m == FirstMax(ks, buffer);
    forall y | y in buffer && Count(buffer, y) == Count(buffer, m)
      ensures FirstIndex(buffer, m) <= FirstIndex(buffer, y)
    {
      FirstMaxEarliest(ks, buffer, y);
    }
    forall x | IsMostCommon(buffer, x) ensures x == m {
      MostCommonUnique(buffer, x, m);
    }
  }

  /** Ties go to the emotion seen first, not to the emotion that reaches the
      maximal count first: in Sad, Happy, Happy, Sad both emotions occur
      twice, Happy reaches two first, and Sad wins. */
  lemma TieGoesToFirstSeen()
    ensures AverageEmotion(["Sad", "Happy", "Happy", "Sad"]) == "Sad"
  {
    var b := ["Sad", "Happy", "Happy", "Sad"];
    TieCounts();
    TieFirst();
    assert forall z :: z in b ==> z == "Sad" || z == "Happy";
    TieBetweenTwo(b, "Sad", "Happy");
  }

  /** In a buffer of two emotions that occur equally often, the one seen
      first wins. */
  lemma TieBetweenTwo(b: seq<string>, x: string, y: string)
    requires forall z :: z in b ==> z == x || z == y
    requires x in b && y in b
    requires Count(b, x) == Count(b, y)
    requires FirstIndex(b, x) < FirstIndex(b, y)
    ensures AverageEmotion(b) == x
  {
    AverageEmotionSpec(b);
  }

  /** The first occurrences in the tie example. */
  lemma TieFirst()
    ensures FirstIndex(["Sad", "Happy", "Happy", "Sad"], "Sad") == 0
    ensures FirstIndex(["Sad", "Happy", "Happy", "Sad"], "Happy") == 1
  {
    var b := ["Sad", "Happy", "Happy", "Sad"];
    assert b[0] == "Sad" && b[1] == "Happy";
  }

  /** The counts in the tie example. */
  lemma TieCounts()
    ensures Count(["Sad", "Happy", "Happy", "Sad"], "Sad") == 2
    ensures Count(["Sad", "Happy", "Happy", "Sad"], "Happy") == 2
  {
    var b := ["Sad", "Happy", "Happy", "Sad"];
    assert b[..3] == ["Sad", "Happy", "Happy"];
    assert b[..3][..2] == ["Sad", "Happy"];
    assert b[..3][..2][..1] == ["Sad"];
    assert ["Sad"][..0] == [];
  }

  /** "Unknown" comes back exactly for the empty buffer or when "Unknown"
      is itself the winning emotion; a window whose frames all failed to
      classify therefore also reports "Unknown". */
  lemma UnknownWhen(buffer: seq<string>)
    ensures AverageEmotion(buffer) == "Unknown" <==> buffer == [] || IsMostCommon(buffer, "Unknown")
  {
    if buffer != [] {
      AverageEmotionSpec(buffer);
    }
  }

  // ---------------------------------------------------------------------
  // The window

  /** The module state: the `collecting` flag and `emotion_buffer`. */
  datatype Window = Window(collecting: bool, buffer: seq<string>)

  /** The state at import time. */
  const Initial := Window(false, [])

  /** The start of `collect_emotions`: a fresh buffer and an open window. */
  function Start(w: Window): (w': Window)
    ensures w'.collecting && w'.buffer == []
  {
    Window(true, [])
  }

  /** The guard in the video loop: a frame's emotion is appended, at the end,
      only while the window is open. */
  function Offer(w: Window, emotion: string): (w': Window)
    ensures w'.collecting == w.collecting
    ensures w.collecting ==> w'.buffer == w.buffer + [emotion]
    ensures !w.collecting ==> w' == w
  {
    if w.collecting then w.(buffer := w.buffer + [emotion]) else w
  }

  /** A run of frames, in arrival order. */
  function OfferAll(w: Window, emotions: seq<string>): (w': Window)
    ensures w'.collecting == w.collecting
    ensures w.buffer <= w'.buffer && |w'.buffer| <= |w.buffer| + |emotions|
    decreases |emotions|
  {
    if emotions == [] then w else OfferAll(Offer(w, emotions[0]), emotions[1..])
  }

  /** While the window is open every frame is kept, in order. */
  lemma {:induction false} OfferAllOpen(w: Window, emotions: seq<string>)
    requires w.collecting
    ensures OfferAll(w, emotions) == w.(buffer := w.buffer + emotions)
    decreases |emotions|
  {
    if emotions != [] {
      OfferAllOpen(Offer(w, emotions[0]), emotions[1..]);
      assert w.buffer + [emotions[0]] + emotions[1..] == w.buffer + emotions;
    }
  }

  /** While the window is closed no frame changes anything. */
  lemma {:induction false} OfferAllClosed(w: Window, emotions: seq<string>)
    requires !w.collecting
    ensures OfferAll(w, emotions) == w
    decreases |emotions|
  {
    if emotions != [] {
      OfferAllClosed(Offer(w, emotions[0]), emotions[1..]);
    }
  }

  /** The end of `collect_emotions`: the window closes, the buffer stays as
      it is, and the vote over it is returned. */
  function Stop(w: Window): (res: (Window, string))
    ensures !res.0.collecting && res.0.buffer == w.buffer
    ensures w.buffer == [] ==> res.1 == "Unknown"
    ensures w.buffer != [] ==> res.1 in w.buffer
  {
    (w.(collecting := false), AverageEmotion(w.buffer))
  }

  /** One whole `collect_emotions` call, with `frames` the emotions the video
      loop produces while it sleeps. */
  function Collect(w: Window, frames: seq<string>): (res: (Window, string))
    ensures !res.0.collecting && res.0.buffer == frames
    ensures frames == [] ==> res.1 == "Unknown"
    ensures frames != [] ==> res.1 in frames
  {
    OfferAllOpen(Start(w), frames);
    assert [] + frames == frames;
    Stop(OfferAll(Start(w), frames))
  }

  /** A collection summarises exactly the frames seen while it was open,
      whatever the buffer held before, and leaves the window closed with
      those frames in the buffer. */
  lemma CollectSummarises(w: Window, frames: seq<string>)
    ensures Collect(w, frames).0 == Window(false, frames)
    ensures Collect(w, frames).1 == AverageEmotion(frames)
    ensures frames != [] ==> IsMostCommon(frames, Collect(w, frames).1)
  {
    OfferAllOpen(Start(w), frames);
    assert [] + frames == frames;
    if frames != [] {
      AverageEmotionSpec(frames);
    }
  }

  /** Frames arriving after the window closed do not change the buffer the
      last collection left. */
  lemma AfterStop(w: Window, frames: seq<string>, later: seq<string>)
    ensures OfferAll(Collect(w, frames).0, later) == Window(false, frames)
  {
    CollectSummarises(w, frames);
    OfferAllClosed(Collect(w, frames).0, later);
  }
}
