/** Batch translation of recognised utterances: every item is translated on
    its own, a translator failure leaves that item untranslated, and the
    batch always runs to the end. */
module BatchTranslation {
  import opened Wrappers

  /** One recognised utterance; either key may be missing. */
  datatype Item = Item(timestamp: Option<string>, text: Option<string>)

  /** One output entry; `translatedText` is `None` when the translator failed. */
  datatype Translated = Translated(timestamp: string, originalText: string, translatedText: Option<string>)

  /** The translation service: text, source language code, target language
      code; `None` when the call raises or its answer lacks the translated
      text. */
  type Translator = (string, string, string) -> Option<string>

  /** The UTC clock, read once per item position. */
  type Clock = nat -> string

  /** `item.get("timestamp") or now`: a missing or empty timestamp is
      replaced by the current time. */
  function TimestampOr(item: Item, now: string): (ts: string)
    ensures item.timestamp.Some? && item.timestamp.value != [] ==> ts == item.timestamp.value
    ensures item.timestamp.None? || item.timestamp.value == [] ==> ts == now
  {
    match item.timestamp
    case Some(t) => if t != [] then t else now
    case None => now
  }

  /** The loop body for one item: on success the translator's text, on
      failure `None`; timestamp and original text are the same either way. */
  function TranslateItem(item: Item, target: string, translate: Translator, now: string): (r: Translated)
    ensures r.originalText == item.text.GetOr([])
    ensures r.timestamp == TimestampOr(item, now)
    ensures r.translatedText == translate(item.text.GetOr([]), "auto", target)
  {
    var original := item.text.GetOr([]);
    var timestamp := TimestampOr(item, now);
    match translate(original, "auto", target)
    case Some(t) => Translated(timestamp, original, Some(t))
    case None => Translated(timestamp, original, None)
  }

  /** `translate_json_list`: one entry per item, in input order, each made
      from its own item only. */
  method TranslateJsonList(items: seq<Item>, target: string, translate: Translator, clock: Clock)
    returns (out: seq<Translated>)
    ensures |out| == |items|
    ensures forall i :: 0 <= i < |items| ==> out[i].originalText == items[i].text.GetOr([])
    ensures forall i :: 0 <= i < |items| ==> out[i].timestamp == TimestampOr(items[i], clock(i))
    ensures forall i :: 0 <= i < |items| ==>
              out[i].translatedText == translate(items[i].text.GetOr([]), "auto", target)
  {
    out := [];
    var i := 0;
    while i < |items|
      invariant 0 <= i <= |items|
      invariant |out| == i
      invariant forall k :: 0 <= k < i ==> out[k] == TranslateItem(items[k], target, translate, clock(k))
    {
      out := out + [TranslateItem(items[i], target, translate, clock(i))];
      i := i + 1;
    }
  }

  /** The whole batch as a function, for reasoning about several calls. */
  function TranslateAll(items: seq<Item>, target: string, translate: Translator, clock: Clock): (out: seq<Translated>)
    ensures |out| == |items|
  {
    seq(|items|, i requires 0 <= i < |items| => TranslateItem(items[i], target, translate, clock(i)))
  }

  /** The loop computes `TranslateAll`. */
  lemma TranslateJsonListIsTranslateAll(items: seq<Item>, target: string, translate: Translator, clock: Clock,
                                        out: seq<Translated>)
    requires |out| == |items|
    requires forall i :: 0 <= i < |items| ==> out[i].originalText == items[i].text.GetOr([])
    requires forall i :: 0 <= i < |items| ==> out[i].timestamp == TimestampOr(items[i], clock(i))
    requires forall i :: 0 <= i < |items| ==>
               out[i].translatedText == translate(items[i].text.GetOr([]), "auto", target)
    ensures out == TranslateAll(items, target, translate, clock)
  {
  }

  /** A failing translator does not stop the batch: every item still gets
      its entry, with no translation and its own text and timestamp. */
  lemma FailureContinues(items: seq<Item>, target: string, clock: Clock)
    ensures var out := TranslateAll(items, target, (t, s, d) => None, clock);
            |out| == |items| &&
            forall i :: 0 <= i < |items| ==>
              out[i] == Translated(TimestampOr(items[i], clock(i)), items[i].text.GetOr([]), None)
  {
  }

  /** When every item carries a non-empty timestamp the clock is never
      consulted, and the output timestamps are the input ones. */
  lemma TimestampsKept(items: seq<Item>, target: string, translate: Translator, c1: Clock, c2: Clock)
    requires forall i :: 0 <= i < |items| ==> items[i].timestamp.Some? && items[i].timestamp.value != []
    ensures TranslateAll(items, target, translate, c1) == TranslateAll(items, target, translate, c2)
    ensures forall i :: 0 <= i < |items| ==>
              TranslateAll(items, target, translate, c1)[i].timestamp == items[i].timestamp.value
  {
    var a := TranslateAll(items, target, translate, c1);
    var b := TranslateAll(items, target, translate, c2);
    forall i | 0 <= i < |items| ensures a[i] == b[i] && a[i].timestamp == items[i].timestamp.value {
      assert a[i] == TranslateItem(items[i], target, translate, c1(i));
      assert b[i] == TranslateItem(items[i], target, translate, c2(i));
    }
  }

  /** Batches compose: translating two batches one after the other gives
      the translation of their concatenation, the clock read on for the
      second batch. */
  lemma TranslateAllConcat(xs: seq<Item>, ys: seq<Item>, target: string, translate: Translator, clock: Clock)
    ensures TranslateAll(xs + ys, target, translate, clock) ==
            TranslateAll(xs, target, translate, clock) +
            TranslateAll(ys, target, translate, (n: nat) => clock(|xs| + n))
  {
    var whole := TranslateAll(xs + ys, target, translate, clock);
    var shifted: Clock := (n: nat) => clock(|xs| + n);
    var right := TranslateAll(ys, target, translate, shifted);
    forall k | 0 <= k < |ys|
      ensures whole[|xs| + k] == right[k]
    {
      assert (xs + ys)[|xs| + k] == ys[k];
    }
  }
}
