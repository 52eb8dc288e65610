/**
 * The JSON side of the pipeline (json_processor.py): item dicts as they are
 * saved to and read back from a project file, the passes that merge and
 * clean them before synthesis, the mapping from a project to its JSON
 * chapters, and the model list read from the backend settings.
 */
module Consolidator {
  import opened Wrappers
  import opened Text
  import I = Items
  import P = Projects

  /** A value under "speaker_id": a string, an integer, or JSON null. */
  datatype SpeakerId = Str(s: string) | Num(n: int) | Null

  /** An item dict restricted to the three keys the passes read; a missing key is None. */
  datatype Entry = Entry(text: Option<string>, minLength: Option<int>, speakerId: Option<SpeakerId>)

  /** `{}`, the only falsy dict. */
  const EmptyEntry: Entry := Entry(None, None, None)

  predicate IsEmpty(e: Entry) { e.text.None? && e.minLength.None? && e.speakerId.None? }

  /** `e.get("text", "")` */
  function TextOf(e: Entry): string { if e.text.Some? then e.text.value else "" }

  /** `e.get("min_length", 0)` */
  function MinOf(e: Entry): int { if e.minLength.Some? then e.minLength.value else 0 }

  /** `e.get("speaker_id", "")`: a missing key reads as the empty string. */
  function SpeakerOf(e: Entry): SpeakerId { if e.speakerId.Some? then e.speakerId.value else Str("") }

  /** `new_item(text, min_length, speaker_id)`; the speaker id defaults to null. */
  function NewEntry(text: string, minLength: int, speakerId: SpeakerId): (e: Entry)
    ensures !IsEmpty(e) && TextOf(e) == text && MinOf(e) == minLength && SpeakerOf(e) == speakerId
  {
    Entry(Some(text), Some(minLength), Some(speakerId))
  }

  /** `new_pause_item(duration)`: only a length, so no speaker id at all. */
  function NewPauseEntry(duration: int): (e: Entry)
    ensures !IsEmpty(e) && TextOf(e) == "" && MinOf(e) == duration && e.speakerId.None? && SpeakerOf(e) == Str("")
  {
    Entry(None, Some(duration), None)
  }

  // ---------------------------------------------------------------------
  // _merge_items

  /** The dict a run absorbs the next one into: texts joined by a space, lengths added, the run's speaker kept. */
  function Combine(m: Entry, t: Entry): (r: Entry)
    ensures !IsEmpty(r) && SpeakerOf(r) == SpeakerOf(m) && MinOf(r) == MinOf(m) + MinOf(t)
    ensures TextOf(r) == TextOf(m) + " " + TextOf(t)
  {
    Entry(Some(TextOf(m) + " " + TextOf(t)), Some(MinOf(m) + MinOf(t)), Some(SpeakerOf(m)))
  }

  /** `final_items` and `merged_item` of the merge loop. */
  datatype Run = Run(final: seq<Entry>, merged: Option<Entry>)

  /**
   * One iteration: a missing or falsy run is replaced by the item, an item
   * with the run's speaker id is absorbed, any other closes the run.
   */
  function MergeStep(st: Run, t: Entry): Run
  {
    if st.merged.None? || IsEmpty(st.merged.value) then Run(st.final, Some(t))
    else if SpeakerOf(st.merged.value) == SpeakerOf(t) then Run(st.final, Some(Combine(st.merged.value, t)))
    else Run(st.final + [st.merged.value], Some(t))
  }

  function MergeFrom(items: seq<Entry>): Run
    decreases |items|
  {
    if |items| == 0 then Run([], None) else MergeStep(MergeFrom(items[..|items| - 1]), items[|items| - 1])
  }

  /** The loop's state once the open run, if any, has been appended. */
  function Flush(st: Run): seq<Entry>
  {
    st.final + (if st.merged.Some? then [st.merged.value] else [])
  }

  function MergeItems(items: seq<Entry>): seq<Entry>
  {
    Flush(MergeFrom(items))
  }

  /** The loop of `_merge_items`. */
  method MergeItemsLoop(items: seq<Entry>) returns (finalItems: seq<Entry>)
    ensures finalItems == MergeItems(items)
  {
    finalItems := [];
    var merged: Option<Entry> := None;
    for i := 0 to |items|
      invariant Run(finalItems, merged) == MergeFrom(items[..i])
    {
      var t := items[i];
      if merged.None? || IsEmpty(merged.value) {
        merged := Some(t);
      } else if SpeakerOf(merged.value) == SpeakerOf(t) {
        merged := Some(Entry(Some(TextOf(merged.value) + " " + TextOf(t)), Some(MinOf(merged.value) + MinOf(t)),
                             Some(SpeakerOf(merged.value))));
      } else {
        finalItems := finalItems + [merged.value];
        merged := Some(t);
      }
      assert items[..i + 1][..i] == items[..i];
    }
    assert items[..|items|] == items;
    if merged.Some? {
      finalItems := finalItems + [merged.value];
    }
  }

  // ---------------------------------------------------------------------
  // optimize

  /** The filter of `optimize`: some text once stripped, or a positive length. */
  predicate Keep(e: Entry) { Strip(TextOf(e)) != "" || MinOf(e) > 0 }

  function DropEmpty(items: seq<Entry>): (r: seq<Entry>)
    ensures |r| <= |items|
    ensures forall k :: 0 <= k < |r| ==> Keep(r[k])
    decreases |items|
  {
    if |items| == 0 then []
    else
      var front := DropEmpty(items[..|items| - 1]);
      var x := items[|items| - 1];
      if Keep(x) then
        assert forall k :: 0 <= k < |front| ==> (front + [x])[k] == front[k];
        front + [x]
      else front
  }

  /** A dict survives the filter exactly when it was in the input and is worth keeping. */
  lemma {:induction false} DropEmptyKeepsExactly(items: seq<Entry>, e: Entry)
    ensures e in DropEmpty(items) <==> e in items && Keep(e)
    decreases |items|
  {
    if |items| > 0 {
      var init := items[..|items| - 1];
      DropEmptyKeepsExactly(init, e);
      assert items == init + [items[|items| - 1]];
    }
  }

  /** A pause dict — speaker id exactly the integer -1 — is capped at `maxPause` when that is positive. */
  function Clamp(e: Entry, maxPause: int): (r: Entry)
    ensures r.text == e.text && r.speakerId == e.speakerId
    ensures e.speakerId == Some(Num(-1)) && maxPause > 0 && MinOf(e) > maxPause ==> r.minLength == Some(maxPause)
    ensures !(e.speakerId == Some(Num(-1)) && maxPause > 0 && MinOf(e) > maxPause) ==> r == e
  {
    if e.speakerId == Some(Num(-1)) && maxPause > 0 && MinOf(e) > maxPause then e.(minLength := Some(maxPause)) else e
  }

  function ClampAll(items: seq<Entry>, maxPause: int): (r: seq<Entry>)
    ensures |r| == |items| && forall k :: 0 <= k < |items| ==> r[k] == Clamp(items[k], maxPause)
  {
    seq(|items|, k requires 0 <= k < |items| => Clamp(items[k], maxPause))
  }

  /** `optimize`: merge, drop what is left empty, merge again, cap the pauses. */
  function Optimize(items: seq<Entry>, maxPause: int): seq<Entry>
  {
    ClampAll(MergeItems(DropEmpty(MergeItems(items))), maxPause)
  }

  lemma DropEmptyStep(items: seq<Entry>, i: nat)
    requires i < |items|
    ensures DropEmpty(items[..i + 1]) == DropEmpty(items[..i]) + (if Keep(items[i]) then [items[i]] else [])
  {
    assert items[..i + 1][..i] == items[..i];
  }

  /** The loop of `optimize` that keeps the non-empty items. */
  method DropEmptyLoop(items: seq<Entry>) returns (kept: seq<Entry>)
    ensures kept == DropEmpty(items)
  {
    kept := [];
    for i := 0 to |items|
      invariant kept == DropEmpty(items[..i])
    {
      DropEmptyStep(items, i);
      var stripped := Strip(TextOf(items[i]));
      if stripped != "" || MinOf(items[i]) > 0 {
        kept := kept + [items[i]];
      }
    }
    assert items[..|items|] == items;
  }

  /** The clamping loop, which edits the dicts in place. */
  method ClampInPlace(items: seq<Entry>, maxPause: int) returns (out: seq<Entry>)
    ensures out == ClampAll(items, maxPause)
  {
    out := items;
    for i := 0 to |out|
      invariant |out| == |items|
      invariant forall k :: 0 <= k < i ==> out[k] == Clamp(items[k], maxPause)
      invariant forall k :: i <= k < |out| ==> out[k] == items[k]
    {
      if out[i].speakerId == Some(Num(-1)) && maxPause > 0 {
        if MinOf(out[i]) > maxPause {
          out := out[i := out[i].(minLength := Some(maxPause))];
        }
      }
    }
  }

  method OptimizeSteps(items: seq<Entry>, maxPause: int) returns (out: seq<Entry>)
    ensures out == Optimize(items, maxPause)
  {
    out := MergeItemsLoop(items);
    out := DropEmptyLoop(out);
    out := MergeItemsLoop(out);
    out := ClampInPlace(out, maxPause);
  }

  // ---------------------------------------------------------------------
  // preprocess

  /** The rewrites of a truthy text: dashes, then brackets and the ellipsis become paragraph breaks; one space ends it. */
  function PrepText(s: string): string
  {
    var a := Replace(s, " \U{2013} ", " - ");
    var b := Replace(a, "\U{2014}", " - ");
    var c := Replace(b, " - ", "\n\n");
    var d := Replace(c, "(", "\n\n");
    var e := Replace(d, ")", "\n\n");
    var f := Replace(e, "\U{2026}", "\n\n");
    Strip(f) + " "
  }

  /** Only items whose text is truthy are rewritten; every other key stays. */
  function PrepEntry(e: Entry): (r: Entry)
    ensures r.minLength == e.minLength && r.speakerId == e.speakerId
    ensures TextOf(e) == "" ==> r == e
    ensures TextOf(e) != "" ==> r.text == Some(PrepText(TextOf(e)))
  {
    if e.text.Some? && e.text.value != "" then e.(text := Some(PrepText(e.text.value))) else e
  }

  function Preprocess(items: seq<Entry>): (r: seq<Entry>)
    ensures |r| == |items| && forall k :: 0 <= k < |items| ==> r[k] == PrepEntry(items[k])
  {
    seq(|items|, k requires 0 <= k < |items| => PrepEntry(items[k]))
  }

  /** The chain of `str.replace` calls and the final strip. */
  method PrepTextSteps(s: string) returns (t: string)
    ensures t == PrepText(s)
  {
    t := Replace(s, " \U{2013} ", " - ");
    t := Replace(t, "\U{2014}", " - ");
    t := Replace(t, " - ", "\n\n");
    t := Replace(t, "(", "\n\n");
    t := Replace(t, ")", "\n\n");
    t := Replace(t, "\U{2026}", "\n\n");
    t := Strip(t) + " ";
  }

  /** `preprocess`, which rewrites the dicts in place and returns the same list. */
  method PreprocessInPlace(items: seq<Entry>) returns (out: seq<Entry>)
    ensures out == Preprocess(items)
  {
    out := items;
    for i := 0 to |out|
      invariant |out| == |items|
      invariant forall k :: 0 <= k < i ==> out[k] == PrepEntry(items[k])
      invariant out[i..] == items[i..]
    {
      assert out[i] == items[i];
      if out[i].text.Some? && out[i].text.value != "" {
        var t := PrepTextSteps(out[i].text.value);
        out := out[i := out[i].(text := Some(t))];
      }
    }
  }

  // ---------------------------------------------------------------------
  // tts_project_to_json: chapters and items

  /**
   * One item as a dict: a text dict with its length and `str(speaker_idx)`
   * when it has text, a pause dict when it only has a (non-zero) length,
   * else `{}`.
   */
  function ItemToEntry(it: I.Item): (e: Entry)
    ensures it.text != "" ==> e == NewEntry(it.text, it.length, Str(IntToString(it.speakerIdx)))
    ensures it.text == "" && it.length != 0 ==> e == NewPauseEntry(it.length)
    ensures it.text == "" && it.length == 0 ==> e == EmptyEntry
  {
    if it.text != "" then NewEntry(it.text, it.length, Str(IntToString(it.speakerIdx)))
    else if it.length != 0 then NewPauseEntry(it.length)
    else EmptyEntry
  }

  /** `{"title": ..., "items": [...]}` */
  datatype JsonChapter = JsonChapter(title: string, items: seq<Entry>)

  function ItemsToEntries(items: seq<I.Item>): (r: seq<Entry>)
    ensures |r| == |items| && forall k :: 0 <= k < |items| ==> r[k] == ItemToEntry(items[k])
  {
    seq(|items|, k requires 0 <= k < |items| => ItemToEntry(items[k]))
  }

  function ChaptersToJson(chapters: seq<P.Chapter>): (r: seq<JsonChapter>)
    ensures |r| == |chapters|
    ensures forall k :: 0 <= k < |chapters| ==> r[k] == JsonChapter(chapters[k].title, ItemsToEntries(chapters[k].items))
  {
    seq(|chapters|, k requires 0 <= k < |chapters| => JsonChapter(chapters[k].title, ItemsToEntries(chapters[k].items)))
  }

  /** The chapter loop of `tts_project_to_json`, with its inner item loop. */
  method ChaptersToJsonLoop(chapters: seq<P.Chapter>) returns (out: seq<JsonChapter>)
    ensures out == ChaptersToJson(chapters)
  {
    out := [];
    for c := 0 to |chapters|
      invariant out == ChaptersToJson(chapters[..c])
    {
      var itemsDict: seq<Entry> := [];
      var items := chapters[c].items;
      for j := 0 to |items|
        invariant itemsDict == ItemsToEntries(items[..j])
      {
        var itemDict := EmptyEntry;
        if items[j].text != "" {
          itemDict := NewEntry(items[j].text, items[j].length, Str(IntToString(items[j].speakerIdx)));
        } else if items[j].length != 0 {
          itemDict := NewPauseEntry(items[j].length);
        }
        itemsDict := itemsDict + [itemDict];
      }
      assert items[..|items|] == items;
      out := out + [JsonChapter(chapters[c].title, itemsDict)];
    }
    assert chapters[..|chapters|] == chapters;
  }

  // ---------------------------------------------------------------------
  // get_model_info

  /**
   * The "backend" object of a project file: "backend_id" and the
   * "speaker_id_mapping" object as its (key, model) pairs in order. A missing
   * "backend" reads as `{}`, which is `Backend(None, None)`.
   */
  datatype Backend = Backend(backendId: Option<string>, mapping: Option<seq<(string, string)>>)

  function Models(b: Backend): seq<string>
  {
    if b.mapping.Some? then seq(|b.mapping.value|, k requires 0 <= k < |b.mapping.value| => b.mapping.value[k].1) else []
  }

  predicate NoDuplicates(xs: seq<string>) { forall i, j :: 0 <= i < j < |xs| ==> xs[i] != xs[j] }

  /** Each model once, in order of first appearance. */
  function Distinct(xs: seq<string>): (r: seq<string>)
    ensures NoDuplicates(r)
    ensures forall x :: x in r <==> x in xs
    decreases |xs|
  {
    if |xs| == 0 then []
    else
      var front := Distinct(xs[..|xs| - 1]);
      var x := xs[|xs| - 1];
      assert forall y :: y in xs <==> y in xs[..|xs| - 1] || y == x by {
        assert xs == xs[..|xs| - 1] + [x];
      }
      if x in front then front else front + [x]
  }

  /** The position of the first occurrence of `x` in `xs`. */
  function FirstIndex(xs: seq<string>, x: string): (i: nat)
    requires x in xs
    ensures i < |xs| && xs[i] == x
  {
    if xs[0] == x then 0
    else
      assert x in xs[1..] by {
        assert xs == [xs[0]] + xs[1..];
      }
      1 + FirstIndex(xs[1..], x)
  }

  /** No occurrence of `x` comes before its first one. */
  lemma {:induction false} FirstIndexAtMost(xs: seq<string>, x: string, k: nat)
    requires k < |xs| && xs[k] == x
    ensures FirstIndex(xs, x) <= k
    decreases k
  {
    if xs[0] != x {
      FirstIndexAtMost(xs[1..], x, k - 1);
    }
  }

  /** A later element does not move the first occurrence of an earlier one. */
  lemma FirstIndexSnoc(xs: seq<string>, y: string, x: string)
    requires x in xs
    ensures FirstIndex(xs + [y], x) == FirstIndex(xs, x)
  {
    var i := FirstIndex(xs, x);
    FirstIndexAtMost(xs + [y], x, i);
    var j := FirstIndex(xs + [y], x);
    FirstIndexAtMost(xs, x, j);
  }

  /** The models come out in the order of their first appearance. */
  lemma {:induction false} DistinctInFirstOrder(xs: seq<string>)
    ensures forall i, j :: 0 <= i < j < |Distinct(xs)| ==> FirstIndex(xs, Distinct(xs)[i]) < FirstIndex(xs, Distinct(xs)[j])
    decreases |xs|
  {
    if |xs| > 0 {
      var init, x := xs[..|xs| - 1], xs[|xs| - 1];
      var front := Distinct(init);
      DistinctInFirstOrder(init);
      assert xs == init + [x];
      var r := Distinct(xs);
      if x in front {
        assert r == front;
        forall i, j | 0 <= i < j < |r|
          ensures FirstIndex(xs, r[i]) < FirstIndex(xs, r[j])
        {
          assert j < |front| && r[i] == front[i] && r[j] == front[j];
          assert FirstIndex(init, front[i]) < FirstIndex(init, front[j]);
          FirstIndexSnoc(init, x, front[i]);
          FirstIndexSnoc(init, x, front[j]);
        }
      } else {
        assert x !in init;
        assert FirstIndex(xs, x) == |init| by {
          assert forall k :: 0 <= k < |init| ==> xs[k] == init[k] && xs[k] != x;
          FirstIndexAtMost(xs, x, |init|);
        }
        assert r == front + [x];
        forall i, j | 0 <= i < j < |r|
          ensures FirstIndex(xs, r[i]) < FirstIndex(xs, r[j])
        {
          assert r[i] == front[i];
          FirstIndexSnoc(init, x, front[i]);
          if j < |front| {
            assert r[j] == front[j];
            assert FirstIndex(init, front[i]) < FirstIndex(init, front[j]);
            FirstIndexSnoc(init, x, front[j]);
          }
        }
      }
    }
  }

  /** `get_model_info`: no models gives `{}`; otherwise the backend id maps to the distinct models. */
  function ModelInfo(b: Backend): (r: map<string, seq<string>>)
    ensures |Models(b)| == 0 <==> r == map[]
    ensures |Models(b)| > 0 ==> r.Keys == {if b.backendId.Some? then b.backendId.value else ""}
    ensures forall id :: id in r ==> NoDuplicates(r[id]) && forall m :: m in r[id] <==> m in Models(b)
  {
    var id := if b.backendId.Some? then b.backendId.value else "";
    if |Models(b)| == 0 then map[]
    else
      var r := map[id := Distinct(Models(b))];
      assert id in r;
      r
  }

  /** The part of `JSON_Processor` whose state the modelled passes touch. */
  class JsonProcessor {
    var backendProperties: Backend

    constructor ()
      ensures backendProperties == Backend(None, None)
    {
      backendProperties := Backend(None, None);
    }

    /** `get_model_info`, which also keeps the backend settings for later. */
    method GetModelInfo(backend: Backend) returns (modelIds: map<string, seq<string>>)
      modifies this
      ensures backendProperties == backend
      ensures modelIds == ModelInfo(backend)
    {
      backendProperties := backend;
      var backendId := if backend.backendId.Some? then backend.backendId.value else "";
      var models := Models(backend);
      modelIds := map[];
      for i := 0 to |models|
        invariant modelIds == if i == 0 then map[] else map[backendId := Distinct(models[..i])]
      {
        assert models[..i + 1][..i] == models[..i];
        if backendId !in modelIds {
          modelIds := modelIds[backendId := []];
        }
        if models[i] !in modelIds[backendId] {
          modelIds := modelIds[backendId := modelIds[backendId] + [models[i]]];
        }
      }
      assert models[..|models|] == models;
    }
  }
}
