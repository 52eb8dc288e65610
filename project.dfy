/** A project: chapters of items plus the metadata a book carries. */
module Projects {
  import opened Items

  /** A chapter: its items, a title, and start and end times in nanoseconds. */
  datatype Chapter = Chapter(items: seq<Item>, title: string, startTime: int, endTime: int)

  /** TTS_Chapter(): no items, no title, both times zero. */
  function EmptyChapter(): (c: Chapter)
    ensures c.items == [] && c.title == "" && c.startTime == 0 && c.endTime == 0
  {
    Chapter([], "", 0, 0)
  }

  /** Every item of every chapter, in reading order. */
  function AllItems(cs: seq<Chapter>): seq<Item>
  {
    if |cs| == 0 then [] else AllItems(cs[..|cs| - 1]) + cs[|cs| - 1].items
  }

  lemma {:induction false} AllItemsAppend(a: seq<Chapter>, b: seq<Chapter>)
    ensures AllItems(a + b) == AllItems(a) + AllItems(b)
    decreases |b|
  {
    if |b| == 0 {
      assert a + b == a;
    } else {
      assert (a + b)[..|a + b| - 1] == a + b[..|b| - 1];
      AllItemsAppend(a, b[..|b| - 1]);
    }
  }

  /** The chapters that keep at least one item, in their order. */
  function NonEmptyChapters(cs: seq<Chapter>): (r: seq<Chapter>)
    ensures |r| <= |cs|
    ensures forall k :: 0 <= k < |r| ==> |r[k].items| > 0 && r[k] in cs
  {
    if |cs| == 0 then []
    else if |cs[|cs| - 1].items| > 0 then NonEmptyChapters(cs[..|cs| - 1]) + [cs[|cs| - 1]]
    else NonEmptyChapters(cs[..|cs| - 1])
  }

  /** A chapter remains if and only if it was there and has an item. */
  lemma {:induction false} NonEmptyChaptersKeepsExactly(cs: seq<Chapter>, c: Chapter)
    ensures c in NonEmptyChapters(cs) <==> c in cs && |c.items| > 0
    decreases |cs|
  {
    if |cs| > 0 {
      var init := cs[..|cs| - 1];
      NonEmptyChaptersKeepsExactly(init, c);
      assert cs == init + [cs[|cs| - 1]];
    }
  }

  /** One chapter is kept alone or dropped. */
  lemma NonEmptyChaptersOne(c: Chapter)
    ensures NonEmptyChapters([c]) == if |c.items| > 0 then [c] else []
  {
    assert [c][..0] == [];
  }

  /** The cleaning works chapter by chapter: it keeps the order and splits over concatenation. */
  lemma {:induction false} NonEmptyChaptersAppend(a: seq<Chapter>, b: seq<Chapter>)
    ensures NonEmptyChapters(a + b) == NonEmptyChapters(a) + NonEmptyChapters(b)
    decreases |b|
  {
    if |b| == 0 {
      assert a + b == a;
    } else {
      var init := b[..|b| - 1];
      NonEmptyChaptersAppend(a, init);
      assert (a + b)[..|a + b| - 1] == a + init;
      assert (a + b)[|a + b| - 1] == b[|b| - 1];
    }
  }

  /** Dropping empty chapters loses no item and changes no item's order. */
  lemma {:induction false} CleaningKeepsItems(cs: seq<Chapter>)
    ensures AllItems(NonEmptyChapters(cs)) == AllItems(cs)
    decreases |cs|
  {
    if |cs| > 0 {
      var init := cs[..|cs| - 1];
      CleaningKeepsItems(init);
      if |cs[|cs| - 1].items| > 0 {
        AllItemsAppend(NonEmptyChapters(init), [cs[|cs| - 1]]);
        assert AllItems([cs[|cs| - 1]]) == cs[|cs| - 1].items by {
          assert [cs[|cs| - 1]][..0] == [];
        }
      }
    }
  }

  /** Cleaning twice is cleaning once. */
  lemma {:induction false} CleaningIsIdempotent(cs: seq<Chapter>)
    ensures NonEmptyChapters(NonEmptyChapters(cs)) == NonEmptyChapters(cs)
    decreases |cs|
  {
    if |cs| > 0 {
      var init := cs[..|cs| - 1];
      CleaningIsIdempotent(init);
      var r := NonEmptyChapters(init);
      if |cs[|cs| - 1].items| > 0 {
        assert (r + [cs[|cs| - 1]])[..|r|] == r;
      }
    }
  }

  class Project {
    var chapters: seq<Chapter>
    var title: string
    var subtitle: string
    var author: string
    var langCode: string
    var imageBytes: seq<bv8>

    /** TTS_Project(): no chapters, empty metadata, language 'en'. */
    constructor ()
      ensures chapters == [] && title == "" && subtitle == "" && author == ""
      ensures langCode == "en" && imageBytes == []
    {
      chapters := [];
      title := "";
      subtitle := "";
      author := "";
      langCode := "en";
      imageBytes := [];
    }

    /**
     * Appends the chapters of `other`, or does nothing when the argument is not
     * a project (null here). Merging a project into itself doubles its chapters.
     */
    method MergeFromProject(other: Project?)
      modifies this`chapters
      ensures other == null ==> chapters == old(chapters)
      ensures other != null ==> chapters == old(chapters) + old(other.chapters)
      ensures other != null ==> AllItems(chapters) == old(AllItems(chapters)) + old(AllItems(other.chapters))
    {
      if other != null {
        AllItemsAppend(chapters, other.chapters);
        chapters := chapters + other.chapters;
      }
    }

    /** Appends `items` to the last chapter, creating an empty first chapter when there is none. */
    method Add(items: seq<Item>)
      modifies this`chapters
      ensures |chapters| == if |old(chapters)| == 0 then 1 else |old(chapters)|
      ensures chapters[..|chapters| - 1] == old(chapters)[..|chapters| - 1]
      ensures var last := if |old(chapters)| == 0 then EmptyChapter() else old(chapters)[|old(chapters)| - 1];
        chapters[|chapters| - 1] == last.(items := last.items + items)
      ensures AllItems(chapters) == old(AllItems(chapters)) + items
    {
      if |chapters| == 0 {
        chapters := chapters + [EmptyChapter()];
      }
      var n := |chapters|;
      var last := chapters[n - 1];
      assert AllItems(chapters) == AllItems(chapters[..n - 1]) + last.items;
      chapters := chapters[..n - 1] + [last.(items := last.items + items)];
    }

    /** Keeps only the chapters that have items, in their order. */
    method CleanEmptyChapters()
      modifies this`chapters
      ensures chapters == NonEmptyChapters(old(chapters))
      ensures AllItems(chapters) == AllItems(old(chapters))
    {
      var kept: seq<Chapter> := [];
      var i := 0;
      while i < |chapters|
        invariant 0 <= i <= |chapters|
        invariant kept == NonEmptyChapters(chapters[..i])
      {
        assert chapters[..i + 1][..i] == chapters[..i];
        if |chapters[i].items| > 0 {
          kept := kept + [chapters[i]];
        }
        i := i + 1;
      }
      assert chapters[..i] == chapters;
      CleaningKeepsItems(chapters);
      chapters := kept;
    }
  }
}
