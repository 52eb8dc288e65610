/**
 * The shared part of every reader (tts_abstract_reader.py): the reader's own
 * title and author, the project it fills, the file name of the finished
 * book, the title taken from a file name, and the word-preserving
 * truncation the readers use for long texts.
 */
module Reader {
  import opened Wrappers
  import opened Text
  import P = Projects

  /** The default suffix of `_smart_truncate`: the UTF-8 bytes of an ellipsis read as Latin-1. */
  const MisdecodedEllipsis: string := "\U{e2}\U{20ac}\U{a6}"

  /** `s[:end]` with Python's meaning of a negative or too large `end`. */
  function Prefix(s: string, end: int): (r: string)
    ensures |r| <= |s| && r == s[..|r|]
    ensures end >= 0 ==> |r| == if end < |s| then end else |s|
    ensures end < 0 ==> |r| == if |s| + end > 0 then |s| + end else 0
  {
    if end >= 0 then (if end < |s| then s[..end] else s)
    else if |s| + end > 0 then s[..|s| + end] else []
  }

  /**
   * `_smart_truncate`: a content of at most `length` characters is kept;
   * otherwise the first `length + 1` characters lose everything from their
   * last space on, and the suffix is appended.
   */
  function SmartTruncate(content: string, length: int, suffix: string): string
  {
    if |content| <= length then content
    else
      var pieces := Split(Prefix(content, length + 1), ' ');
      Join(pieces[..|pieces| - 1], ' ') + suffix
  }

  /**
   * A long content keeps only a prefix that ends right before the last space
   * of its first `length + 1` characters, so no word is cut; that prefix is
   * at most `length` long, and it is empty when those characters have no
   * space.
   */
  lemma SmartTruncateKeepsWholeWords(content: string, length: int, suffix: string)
    ensures |content| <= length ==> SmartTruncate(content, length, suffix) == content
    ensures |content| > length ==>
      var r := SmartTruncate(content, length, suffix);
      var window := Prefix(content, length + 1);
      && |r| >= |suffix| && r[|r| - |suffix|..] == suffix
      && var kept := r[..|r| - |suffix|];
      && |kept| <= |content| && kept == content[..|kept|]
      && (length >= 0 ==> |kept| <= length)
      && (' ' !in window ==> kept == [])
      && (' ' in window ==> |kept| < |window| && window[|kept|] == ' ' && ' ' !in window[|kept| + 1..])
  {
    if |content| > length {
      var window := Prefix(content, length + 1);
      DropLastPiece(window, ' ');
      var i := LastIndexOf(window, ' ');
      var r := SmartTruncate(content, length, suffix);
      var kept := if i >= 0 then window[..i] else [];
      assert r == kept + suffix;
      assert r[..|r| - |suffix|] == kept;
      if i < 0 {
        assert ' ' !in window;
      }
    }
  }

  /** With no space early enough only the suffix is left; otherwise the text up to the last space is kept. */
  lemma SmartTruncateExamples()
    ensures SmartTruncate("abcdef", 3, MisdecodedEllipsis) == MisdecodedEllipsis
    ensures SmartTruncate("ab cdef", 4, "...") == "ab..."
  {
    SmartTruncateKeepsWholeWords("abcdef", 3, MisdecodedEllipsis);
    assert Prefix("abcdef", 4) == "abcd";
    SmartTruncateKeepsWholeWords("ab cdef", 4, "...");
    var w := Prefix("ab cdef", 5);
    assert w == "ab cd";
    assert LastIndexOf(w, ' ') == 2;
    DropLastPiece(w, ' ');
  }

  predicate IsDot(c: char) { c == '.' }

  /** `os.path.basename`: what follows the last '/'. */
  function BaseName(path: string): (r: string)
    ensures '/' !in r
    ensures |r| <= |path| && r == path[|path| - |r|..]
  {
    path[LastIndexOf(path, '/') + 1..]
  }

  /**
   * `os.path.splitext(name)[0]` for a name without '/': the name without its
   * last '.' and what follows, unless only dots precede that '.'.
   */
  function StripExtension(name: string): (r: string)
    ensures |r| <= |name| && r == name[..|r|]
    ensures r != name ==> |r| > 0 && name[|r|] == '.' && '.' !in name[|r| + 1..]
  {
    var dot := LastIndexOf(name, '.');
    if dot > 0 && LeadCount(name, IsDot) < dot then name[..dot] else name
  }

  /** The title `load` takes from a file name. */
  function FileTitle(filename: string): (r: string)
    ensures '/' !in r
  {
    StripExtension(BaseName(filename))
  }

  /** A name made of a stem that does not start with '.', a '.', and an extension without '.' loses the extension. */
  lemma StripExtensionDropsExtension(stem: string, ext: string)
    requires |stem| > 0 && stem[0] != '.' && '.' !in ext
    ensures StripExtension(stem + "." + ext) == stem
  {
    var name := stem + "." + ext;
    assert name[|stem|] == '.';
    assert forall k :: |stem| < k < |name| ==> name[k] == ext[k - |stem| - 1];
    assert LastIndexOf(name, '.') == |stem|;
    assert name[..|stem|] == stem;
  }

  /** A dot file such as ".profile" keeps its whole name. */
  lemma DotFileKeepsName(name: string)
    requires |name| > 0 && name[0] == '.' && '.' !in name[1..]
    ensures StripExtension(name) == name
  {
    assert forall k :: 0 < k < |name| ==> name[k] == name[1..][k - 1];
  }

  /** The state every reader shares: its own title and author, and the project it fills. */
  class AbstractReader {
    var preferredSpeakers: seq<string>
    var project: P.Project
    var title: string
    var author: string
    var outputFormat: string

    /** `preferred_speakers or []`, a new empty project, no title or author, m4b output. */
    constructor (preferredSpeakers: Option<seq<string>>)
      ensures this.preferredSpeakers == if preferredSpeakers.Some? then preferredSpeakers.value else []
      ensures fresh(project) && project.chapters == [] && project.title == "" && project.author == ""
      ensures title == "" && author == "" && outputFormat == "m4b"
    {
      this.preferredSpeakers := if preferredSpeakers.Some? then preferredSpeakers.value else [];
      project := new P.Project();
      title := "";
      author := "";
      outputFormat := "m4b";
    }

    /**
     * `get_output_filename`: the PROJECT's author and title around " - ";
     * the reader's own title and author play no part.
     */
    function OutputFilename(): (r: string)
      reads this, project
      ensures |r| == |project.author| + 3 + |project.title|
      ensures r[..|project.author|] == project.author && r[|project.author|..|project.author| + 3] == " - "
      ensures r[|project.author| + 3..] == project.title
    {
      project.author + " - " + project.title
    }

    /** `load`: the title becomes the file name without directory and extension. */
    method Load(filename: string)
      modifies this`title
      ensures title == FileTitle(filename)
      ensures OutputFilename() == old(OutputFilename())
    {
      title := FileTitle(filename);
    }

    /** `load_raw`: an empty argument keeps the current author or title. */
    method LoadRaw(content: string, author: string, title: string)
      modifies this`author, this`title
      ensures this.author == if author != "" then author else old(this.author)
      ensures this.title == if title != "" then title else old(this.title)
      ensures OutputFilename() == old(OutputFilename())
    {
      if author != "" {
        this.author := author;
      }
      if title != "" {
        this.title := title;
      }
    }
  }
}
