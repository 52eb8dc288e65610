# tts_arranger in Dafny

This project models the in-memory part of tts_arranger: the pipeline that turns
HTML events and plain text into an ordered list of speech items. Each item is
a piece of text with a speaker index, or a pause with a length in milliseconds.
Synthesis and audio are not modelled. The model covers:

- **Rule engine** (`checker.dfy`, module `Checker`).
  - Element conditions.
  - `Checker.determine`, with its early return for ignoring rules and its running total.
- **HTML converter** (`converter.dfy`, module `HtmlConverter`).
  - A class over a frame stack and the project's chapter list, fed abstract start, data and end events.
  - Checker priority assembly and the conversion of parsed checker entries.
  - The item filter of `add_from_html`.
  - `convert_from_html`.
  - `converter_examples.dfy` traces the repository's nested-tags test event by event.
- **Text segmenter, two versions side by side** (`segmenter.dfy`, `segmenter_props.dfy`, module `Segmenter`).
  - `TTS_Processor` of `src/tts_arranger/tts_processor.py`.
  - The older `TTS_Arranger` of `tts_arranger.py`.
  - The parts modelled are the single-pattern splitter, the bracket splitter, the final polishing loop, the merge of neighbours of the same voice, and `preprocess_items`.
  - `segmenter_content.dfy` (module `SegmenterContent`) states exactly what the splitting passes emit. `segmenter_examples.dfy` traces them on "a (b) c" and on the repository's 'a — b.' test.
  - `scan.dfy` (module `Scan`) replaces the regular expressions `(.*?)\n`, `(.*?)[;:]\s`, `(.*?)[—–]` and `(.*?)[.!?]\s` with an explicit scanner.
- **Oldest segmenter** (`legacy.dfy`, `legacy_props.dfy`, module `LegacyConvert`).
  - `TTS_Convert` of `tts_convert.py`, whose items carry `pause_pre`/`pause_post` fields.
  - `_find_and_break`, `_break_single`, `_break_speakers` and `prepare_item`.
- **JSON consolidator** (`consolidator.dfy`, `consolidator_props.dfy`, module `Consolidator`).
  - The item dicts of `json_processor.py`.
  - `_merge_items`, `optimize`, `preprocess`, `new_item`, `new_pause_item`.
  - The chapter/item mapping of `tts_project_to_json`.
  - `get_model_info`.
- **Data structures.**
  - `TTS_Item` and its pause marker (`items.dfy`).
  - `TTS_Project` chapter operations (`project.dfy`).
  - The writer's argument-list surgery and chapter timing and numbering (`writer.dfy`).
  - The abstract reader's truncation, file title and output name (`reader.dfy`).
- **Helpers.** `text.dfy` models Python's `str.strip`, `split`, `join`, `replace`, `isspace` and `string.punctuation`. `wrappers.dfy` holds `Option` and `Result`.

Each loop of the source is a method proved equal to a specification function. That function is defined by recursion on the last element it consumes. The properties the source promises are proved about those functions.

A raised exception is a `Result`/`Option` error or an `ok == false` flag, never a precondition. The one exception is the errors of malformed rule-file entries, which the types rule out; "## Left out" lists them. This covers `list.index` raising `ValueError`, `pop` raising `IndexError`, popping an empty stack, and using a chapter that does not exist yet.

Where the specification and the code disagree, the model follows the code:

- Both segmenter versions set the colon pause to 100 ms. A test expects 150.
- `TTS_Processor` strips every trailing punctuation mark. Its tests (tests/tts_arranger_test.py:102-111 and 300-317) call `TTS_Processor` but expect the older snapshot's minimisation, which keeps the first mark. The model gives both results side by side (`SegmenterExamples.PrepareDashExample`, `SegmenterProps.SicExample`, `SegmenterProps.CandleExample`).
- `TTS_Project.optimize`, which the reader tests call, does not exist in `tts_project.py`. The pass it stands for is `JSON_Processor.optimize`, and that is what is modelled.
- The docstring of `_remove_last_arg` in `json_processor.py` says an empty list raises `ValueError` and that only the argument is removed. The code returns an empty list unchanged (src/tts_arranger/json_processor.py:501). Otherwise it removes the argument together with the element after it, and nothing when the argument is the list's final element. The model, `Writer.RemoveLastArg`, follows the code.

## Model

| member | source | states |
|---|---|---|
| Checker.Determine | src/tts_arranger/tts_reader/checker.py:79-106 | the condition loop, with its early return for IGNORE and its running total, yields exactly the closed-form `Determination` |
| Checker.LastConditionDecides | src/tts_arranger/tts_reader/checker.py:99-106 | a rule that does not ignore matches iff it has conditions and its LAST condition holds (the running total is overwritten, not conjoined); a match hands out the rule's own properties |
| Checker.IgnoreMatchesOnAnyCondition | src/tts_arranger/tts_reader/checker.py:92-97 | an ignoring rule matches iff some condition holds, and never yields properties |
| Checker.OutcomeCarriesRuleSignal | src/tts_arranger/tts_reader/checker.py:104-106 | matched or not, the outcome carries the rule's signal; a miss carries no properties |
| Checker.NotAConjunction | src/tts_arranger/tts_reader/checker.py:99-104 | [Name p, Class bla] matches a `div` of class `bla` although its first condition fails |
| Items.NewItem | src/tts_arranger/items/tts_item.py:21-29 | text, speaker and length are kept; an item with no text and a positive length gets speaker index -1, any other item keeps the index it was given |
| Items.Pause | src/tts_arranger/items/tts_item.py:21-29 | `TTS_Item(length=ms)` is a marked pause for ms > 0 and keeps index 0 otherwise |
| Items.MarkerSurvivesTextEdit | src/tts_arranger/tts_processor.py:447-451 | the marker is set only at construction: appending a character to a pause leaves index -1 on an item that is no longer a pause |
| Projects.EmptyChapter | src/tts_arranger/items/tts_chapter.py:28-32 | a new chapter has no items, no title and both times 0 |
| Projects.NonEmptyChapters | src/tts_arranger/items/tts_project.py:164-171 | only chapters with items remain, each taken from the input |
| Projects.NonEmptyChaptersKeepsExactly | src/tts_arranger/items/tts_project.py:164-171 | a chapter is in the result iff it is in the input and has at least one item |
| Projects.NonEmptyChaptersOne | src/tts_arranger/items/tts_project.py:166-169 | one chapter is kept alone when it has items and dropped otherwise |
| Projects.NonEmptyChaptersAppend | src/tts_arranger/items/tts_project.py:164-171 | the filter of a concatenation is the concatenation of the filters: chapters keep their order |
| Projects.CleaningKeepsItems | src/tts_arranger/items/tts_project.py:164-171 | dropping empty chapters loses no item and keeps the items' order |
| Projects.CleaningIsIdempotent | src/tts_arranger/items/tts_project.py:164-171 | cleaning twice is cleaning once |
| Projects.Project.constructor | src/tts_arranger/items/tts_project.py:43-50 | no chapters, empty title, subtitle and author, language 'en', no image bytes |
| Projects.Project.MergeFromProject | src/tts_arranger/items/tts_project.py:71-82 | the other project's chapters are appended in order; a missing project (not a `TTS_Project`) changes nothing |
| Projects.Project.Add | src/tts_arranger/items/tts_project.py:84-98 | the items are appended to the last chapter, which is created first when there is none; earlier chapters are unchanged |
| Projects.Project.CleanEmptyChapters | src/tts_arranger/items/tts_project.py:164-171 | the chapters become `NonEmptyChapters` of the old ones, with the same items in the same order |
| HtmlConverter.ElementTakesLastAttributes | src/tts_arranger/tts_html_converter.py:85-93 | the element's id is the value of the last 'id' attribute, its classes the words of the last 'class' attribute; absent ones leave the defaults |
| HtmlConverter.TagToElement | src/tts_arranger/tts_html_converter.py:73-93 | the attribute loop builds exactly `ElementOf(name, attrs)` |
| HtmlConverter.FirstMatchingRuleWins | src/tts_arranger/tts_html_converter.py:198-202 | rules are tried in list order and the earliest matching rule decides alone |
| HtmlConverter.NoRuleMatches | src/tts_arranger/tts_html_converter.py:198-203 | when no rule matches, the outcome is (NOT_MATCHED, NO_SIGNAL, None) |
| HtmlConverter.CheckElem | src/tts_arranger/tts_html_converter.py:186-203 | the loop with its early return computes `FirstMatch` |
| HtmlConverter.IgnoredTagsBypassRules | src/tts_arranger/tts_html_converter.py:106-109 | script, style and meta push (MATCHED, IGNORE, None) whatever the rules and the stack |
| HtmlConverter.UnmatchedInheritsParent | src/tts_arranger/tts_html_converter.py:113-119 | an unmatched element pushes the parent's signal and properties, with pause_after reset to the default's |
| HtmlConverter.SpeakerNeverDrops | src/tts_arranger/tts_html_converter.py:121-127 | under a parent with properties, the pushed speaker index is at least the parent's |
| HtmlConverter.MatchedTakesRule | src/tts_arranger/tts_html_converter.py:110-129 | a matched element pushes its rule's signal and pause, with the speaker index max(own, parent's) |
| HtmlConverter.DataItem | src/tts_arranger/tts_html_converter.py:149 | text under properties p becomes an item with that text and p's speaker index, length 0, not a pause (the corrected reading, see Findings) |
| HtmlConverter.DataItemAsWritten | src/tts_arranger/tts_html_converter.py:149 | the call as written passes speaker_idx as the positional `speaker` field, so the item's speaker index stays 0 |
| HtmlConverter.AsWrittenDropsSpeakerIndex | src/tts_arranger/tts_html_converter.py:149 | for `test1 ` under a rule of speaker 1 the call as written gives index 0, the corrected one gives 1 |
| HtmlConverter.AppendToLast | src/tts_arranger/tts_html_converter.py:149-150 | one item is appended to the last chapter; the other chapters are unchanged |
| HtmlConverter.RunStopsAtFailure | src/tts_arranger/tts_html_converter.py:221 | once a handler has raised, later events change nothing |
| HtmlConverter.RunKeepsChapters | src/tts_arranger/tts_html_converter.py:131-184 | no event removes a chapter |
| HtmlConverter.PauseOnlyAfterMatchedElements | src/tts_arranger/tts_html_converter.py:159-184 | closing a frame appends exactly one pause of pause_after when the frame is MATCHED, not IGNORE, has properties and pause_after > 0, and changes no chapter otherwise |
| HtmlConverter.StepDepth | src/tts_arranger/tts_html_converter.py:129-159 | a start tag pushes one frame, a successful end tag pops one, text keeps the depth |
| HtmlConverter.RunDepth | src/tts_arranger/tts_html_converter.py:129-159 | after a run without error the stack holds one frame per start tag not yet closed |
| HtmlConverter.KeptItems | src/tts_arranger/tts_html_converter.py:224-230 | only items with text or marked pauses of positive length remain, each from the input |
| HtmlConverter.KeptItemsExact | src/tts_arranger/tts_html_converter.py:224-230 | a chapter whose items are all accepted is unchanged, one whose items are all refused becomes empty |
| HtmlConverter.KeptItemsKeepsExactly | src/tts_arranger/tts_html_converter.py:224-230 | an item is in the result iff it is in the input and has text or is a marked pause of positive length |
| HtmlConverter.KeptItemsOne | src/tts_arranger/tts_html_converter.py:226-228 | one item is kept alone when the condition accepts it and dropped otherwise |
| HtmlConverter.KeptItemsAppend | src/tts_arranger/tts_html_converter.py:224-230 | the filter of a concatenation is the concatenation of the filters: kept items keep their order |
| HtmlConverter.CleanChapters | src/tts_arranger/tts_html_converter.py:224-230 | every chapter keeps its title and times and has its items filtered |
| HtmlConverter.AddFromHtmlOfRun | src/tts_arranger/tts_html_converter.py:205-230 | add_from_html opens a chapter, feeds the events and then cleans every chapter |
| HtmlConverter.CleanedChaptersHoldOnlyKeptItems | src/tts_arranger/tts_html_converter.py:224-230 | after add_from_html every item has text or is a marked pause |
| HtmlConverter.Initial | src/tts_arranger/tts_html_converter.py:67-71 | a fresh converter is consistent and holds exactly one frame |
| HtmlConverter.ConditionOf | src/tts_arranger/tts_html_converter.py:289-306 | an entry gives a condition iff its argument is non-empty and its name is 'Name', 'Class' or 'ID'; the condition carries the argument, and its kind follows the name |
| HtmlConverter.ConditionsOf | src/tts_arranger/tts_html_converter.py:287-306 | no more conditions than entries, each with a non-empty argument; what survives and in what order is in the three lemmas below |
| HtmlConverter.ConditionsOfKeepsExactly | src/tts_arranger/tts_html_converter.py:287-306 | a condition is in the result iff some entry of the list converts to it |
| HtmlConverter.ConditionsOfOne | src/tts_arranger/tts_html_converter.py:294-306 | one entry gives its condition alone, or nothing |
| HtmlConverter.ConditionsOfAppend | src/tts_arranger/tts_html_converter.py:287-306 | the conversion of a concatenation is the concatenation of the conversions: conditions keep the entries' order |
| HtmlConverter.UnusableConditionDropped | src/tts_arranger/tts_html_converter.py:301-305 | an entry with an unknown name or an empty argument leaves the conditions of its neighbours exactly as they are |
| HtmlConverter.ConvertConditions | src/tts_arranger/tts_html_converter.py:287-306 | the condition loop computes `ConditionsOf` |
| HtmlConverter.RuleOf | src/tts_arranger/tts_html_converter.py:283-337 | the rule's conditions are `ConditionsOf` the entry's; an entry always yields properties, with a missing speaker_idx or pause_after read as 0; only 'NEW_CHAPTER' and 'IGNORE' give those signals, anything else NO_SIGNAL |
| HtmlConverter.RulesOf | src/tts_arranger/tts_html_converter.py:280-337 | one rule per entry, in order, even when all its conditions are dropped |
| HtmlConverter.Converter.constructor | src/tts_arranger/tts_html_converter.py:28-71 | custom rules first, then the rule files in order, then the defaults unless ignored; one base frame; a new empty project |
| HtmlConverter.Converter.AddCheckersFromJson | src/tts_arranger/tts_html_converter.py:257-338 | a missing file adds nothing; otherwise its rules are appended after the existing ones |
| HtmlConverter.Converter.HandleStartTag | src/tts_arranger/tts_html_converter.py:95-129 | the new stack is the one `StartStep` gives |
| HtmlConverter.Converter.AppendToCurrentChapter | src/tts_arranger/tts_html_converter.py:149-150 | the item goes to the project's last chapter |
| HtmlConverter.Converter.HandleData | src/tts_arranger/tts_html_converter.py:131-150 | the new state and the error flag are those `DataStep` gives |
| HtmlConverter.Converter.HandleEndTag | src/tts_arranger/tts_html_converter.py:152-184 | the new state and the error flag are those `EndStep` gives |
| HtmlConverter.Converter.Feed | src/tts_arranger/tts_html_converter.py:221 | handles the events in order, as `Run` does, stopping at the first one that raises |
| HtmlConverter.Converter.CleanAllChapters | src/tts_arranger/tts_html_converter.py:223-230 | the filter loop over every chapter computes `CleanChapters` |
| HtmlConverter.Converter.AddFromHtml | src/tts_arranger/tts_html_converter.py:205-230 | the new state is `AddFromHtmlSpec` of the old one |
| HtmlConverter.Converter.ConvertFromHtml | src/tts_arranger/tts_html_converter.py:232-255 | starts from a new project and keeps the rules; on success it returns the project, or in items mode the items of its last chapter, which then always exists; on failure nothing |
| ConverterExamples.OpenParagraph | src/tts_arranger/tts_html_converter.py:121-127 | in the nested-tags test, `<p>` (speaker 0) inside `<blockquote>` (speaker 1) pushes speaker 1 |
| ConverterExamples.ParagraphText | src/tts_arranger/tts_html_converter.py:138-150 | the paragraph's text becomes one item of speaker 1 in the only chapter |
| ConverterExamples.CloseParagraph | src/tts_arranger/tts_html_converter.py:179-184 | closing a frame with pause 0 adds no pause |
| ConverterExamples.NestedTagsSpec | tests/reader_test.py:245-257 | the whole conversion of the nested-tags test ends in the traced final state |
| ConverterExamples.NestedTagsExample | tests/reader_test.py:245-264 | the nested-tags test yields one chapter holding one item `test` of speaker 1 |
| ConverterExamples.CleanKeepsText | src/tts_arranger/tts_html_converter.py:224-230 | the clean-up keeps that item |
| ConverterExamples.CleanKeepsBlankBetweenDropped | tests/reader_test.py:33 | a blank item between two empty ones survives alone, even when one of the empty ones has a length but no pause marker |
| Scan.Matches | src/tts_arranger/tts_processor.py:321-323 | `re.finditer('(.*?)' + d)`: every match ends in the delimiter, has no line feed before it, and starts after the previous one ends |
| Scan.EveryDelimiterIsFound | src/tts_arranger/tts_processor.py:321-323 | every occurrence of the delimiter ends the group of some match |
| Scan.NoDelimiterNoMatch | src/tts_arranger/tts_processor.py:321-323 | a text without the delimiter has no match |
| Segmenter.PauseIfPositive | src/tts_arranger/tts_processor.py:334-335 | a pause item exactly when the length is positive |
| Segmenter.DropWide | src/tts_arranger/tts_processor.py:209 | every character below U+3000 is kept and no other; a text without such characters is unchanged |
| Segmenter.CutThrough | src/tts_arranger/tts_processor.py:323-336 | each piece is a non-empty fragment with the voice and length of its item, or a positive pause_post_ms pause; the exact pieces are in `SegmenterContent.CutThroughPaused` and `CutThroughUnpaused` |
| Segmenter.BreakSingleItem | src/tts_arranger/tts_processor.py:312-342 | each output is the item itself, a positive pause, or a non-empty fragment with the item's voice and length; the exact layout is in `SegmenterContent.BreakSingleItemPaused` and `BreakSingleItemUnpaused` |
| Segmenter.BreakSinglePass | src/tts_arranger/tts_processor.py:291-344 | the item loop of `_break_single` computes `BreakSingle`, whose content `SegmenterContent` and `SegmenterExamples` pin down |
| Segmenter.BreakSingleInto | src/tts_arranger/tts_processor.py:312-342 | one item's fragments and stripped rest are appended |
| Segmenter.CutInto | src/tts_arranger/tts_processor.py:323-336 | the match loop appends the pieces of `CutThrough` and returns the position where the rest of the text starts |
| Segmenter.BreakItemsPass | src/tts_arranger/tts_processor.py:363-484 | the item loop of `_break_items`, with `opened` carried across items, computes `BreakItems`, whose content `SegmenterContent.BreakItemsQuiet` and `SegmenterExamples.ParenthesesExample` pin down |
| Segmenter.BreakItemInto | src/tts_arranger/tts_processor.py:391-482 | one item: the pass-through pause, the character loop, the post pause if something split, the stripped rest |
| Segmenter.WalkItem | src/tts_arranger/tts_processor.py:401-467 | the character loop computes `WalkChars` |
| Segmenter.AttachAt | src/tts_arranger/tts_processor.py:427-432 | a '.', ',', ';' or ':' right at the resume point is appended to the last output item and moves the resume point by the delimiter's length; otherwise nothing changes |
| Segmenter.WalkAt | src/tts_arranger/tts_processor.py:414-467 | one character: open and close tests on its neighbours, the pre pause at a closer, and punctuation glued to the last item |
| Segmenter.Normalise | src/tts_arranger/tts_processor.py:258-260 | character by character, dashes become '-', curly double quotes '"', curly single quotes an apostrophe |
| Segmenter.MinimizeTrailing | tts_arranger.py:150-158 | the result is a prefix; only punctuation and spaces are cut; text that does not end in them, or consists only of them, is unchanged; otherwise the first mark of the trailing run stays |
| Segmenter.MinimizeTailingPunctuation | tts_arranger.py:150-158 | the counting loop computes `MinimizeTrailing` |
| Segmenter.Polish | src/tts_arranger/tts_processor.py:258-271 | the polished text has no surrounding whitespace, and for any model other than vctk it does not end in a letter or digit |
| Segmenter.Core | src/tts_arranger/tts_processor.py:267 | strip, drop leading punctuation, strip: no surrounding whitespace |
| Segmenter.AddStop | src/tts_arranger/tts_processor.py:269-271 | keeps a text without surrounding whitespace free of it; when enabled the result never ends in a letter or digit; when disabled the text is unchanged |
| Segmenter.SentencePause | src/tts_arranger/tts_processor.py:278-281 | 750 ms after '.' or ':', 1000 ms after '!' or '?', nothing otherwise |
| Segmenter.Kept | src/tts_arranger/tts_processor.py:273-281 | every output is pause-voiced or has the item's voice and length; an output with text holds exactly the polished text, which has a letter or digit |
| Segmenter.FinishPass | src/tts_arranger/tts_processor.py:249-281 | the final loop computes `Finish` |
| Segmenter.FinishInto | src/tts_arranger/tts_processor.py:251-281 | one item: its pause if it is one, then its polished text if kept |
| Segmenter.PolishText | src/tts_arranger/tts_processor.py:258-271 | the chain of edits computes `Polish` |
| Segmenter.KeepInto | src/tts_arranger/tts_processor.py:273-281 | appends `Kept(it, text)` |
| Segmenter.Absorb | src/tts_arranger/tts_processor.py:527-531 | a run absorbing an item keeps the run's voice and adds the lengths |
| Segmenter.MergeSimilar | src/tts_arranger/tts_processor.py:504-550 | the merge is never longer than its input and is empty only for an empty input |
| Segmenter.MergeSimilarItems | src/tts_arranger/tts_processor.py:504-550 | the merge loop, with its open run and end-of-list flush, computes `MergeSimilar` |
| Segmenter.AbsorbInto | src/tts_arranger/tts_processor.py:527-531 | the same-voice branch computes `Absorb` |
| Segmenter.PrepareItemSteps | src/tts_arranger/tts_processor.py:195-289 | `_prepare_item`: the pause bypass, the text clean-up, the seven passes in order and the final loop |
| Segmenter.PrepareEach | src/tts_arranger/tts_processor.py:496-500 | every item prepared, results concatenated in order |
| Segmenter.PreprocessItems | src/tts_arranger/tts_processor.py:486-502 | merge, then prepare; the older snapshot prepares, then merges |
| SegmenterProps.BreakSingleKeepsVoice | src/tts_arranger/tts_processor.py:330-333 | `_break_single` gives every fragment the voice of its item; pauses are pause-voiced |
| SegmenterProps.BreakItemsKeepsVoice | src/tts_arranger/tts_processor.py:401-482 | the same for `_break_items` |
| SegmenterProps.FinishKeepsVoice | src/tts_arranger/tts_processor.py:251-281 | the same for the final loop |
| SegmenterProps.PassesKeepVoice | src/tts_arranger/tts_processor.py:219-247 | the same for all seven passes |
| SegmenterProps.PrepareKeepsVoice | src/tts_arranger/tts_processor.py:195-289 | every item `_prepare_item` yields has the voice of its input or is a pause |
| SegmenterProps.PrepareAllKeepsVoice | src/tts_arranger/tts_processor.py:496-500 | the same for a list of items of one voice |
| SegmenterProps.MergeKeepsVoice | src/tts_arranger/tts_processor.py:520-548 | merging invents no voice |
| SegmenterProps.PreprocessKeepsVoice | src/tts_arranger/tts_processor.py:486-502 | `preprocess_items` on one voice yields only that voice and pauses, in both versions |
| SegmenterProps.BreakSingleKeepsPause | src/tts_arranger/tts_processor.py:315-316 | a pause passes `_break_single` unchanged |
| SegmenterProps.BreakItemsKeepsPause | src/tts_arranger/tts_processor.py:396-397 | a pause passes `_break_items` unchanged |
| SegmenterProps.FinishKeepsPause | src/tts_arranger/tts_processor.py:254-255 | a pause passes the final loop unchanged, exactly once |
| SegmenterProps.PauseItemsSurvive | tts_arranger.py:212-218 | in both versions a pause comes out of `_prepare_item` as itself when the clean-up maps the empty text to itself; the older one has no bypass and gets there through the passes |
| SegmenterProps.MergeKeepsTotalLength | src/tts_arranger/tts_processor.py:531 | merging keeps the total length |
| SegmenterProps.MergeSeparates | src/tts_arranger/tts_processor.py:520-548 | no two neighbours of the merge share a voice |
| SegmenterProps.MergeOfSeparated | src/tts_arranger/tts_processor.py:520-548 | items with no equal-voiced neighbours are left unchanged |
| SegmenterProps.MergeIsIdempotent | src/tts_arranger/tts_processor.py:504-550 | merging twice is merging once |
| SegmenterProps.ArrangerMergeKeepsText | tts_arranger.py:425-428 | the older merge concatenates texts with no separator: no character is lost or added |
| SegmenterProps.ProcessorMergeJoinsWithSpaces | src/tts_arranger/tts_processor.py:529-530 | for items that all have text, the texts of the merge joined by spaces equal the input texts joined by spaces |
| SegmenterProps.ProcessorEmptyRunSwallowsText | src/tts_arranger/tts_processor.py:529-531 | a run whose text is empty absorbs the next item's length but drops its text |
| SegmenterProps.BoundaryCases | src/tts_arranger/tts_processor.py:359-361 | a neighbour out of range always counts as a boundary; in range it is one iff it is punctuation or a space |
| SegmenterProps.ArrangerOpenerAtOne | tts_arranger.py:289-294 | the older `_get_character` returns '' at 0, so index 0 is always a boundary there, unlike in the current version |
| SegmenterProps.LongDelimitersNeverMatch | src/tts_arranger/tts_processor.py:414-441 | a delimiter pair of other than one character each never opens, closes or splits |
| SegmenterProps.SpacedEnDashesNeverSplit | src/tts_arranger/tts_processor.py:243 | the ('– ', ' –') pass therefore never splits |
| SegmenterProps.NormaliseKeepsPlain | src/tts_arranger/tts_processor.py:258-260 | text without dash or quote variants is unchanged |
| SegmenterProps.CoreOfSolidWord | src/tts_arranger/tts_processor.py:267 | a text with solid ends and no leading punctuation survives the strips |
| SegmenterProps.PolishWordWithTail | src/tts_arranger/tts_processor.py:264 | a word followed by punctuation keeps only the first mark in the older snapshot and none in the current one |
| SegmenterProps.TrimWordWithTail | src/tts_arranger/tts_processor.py:264 | the two trailing-punctuation rules on a word with a punctuation tail |
| SegmenterProps.SicExample | tests/tts_arranger_test.py:300-306 | 'sic!].' polishes to 'sic!' in the older snapshot and to 'sic' in the current one |
| SegmenterProps.CandleExample | tests/tts_arranger_test.py:311-317 | 'candle- ?, ?' polishes to 'candle-' in the older snapshot and to 'candle' in the current one |
| SegmenterProps.ProcessorSentencePauseNeedsOtherWhitespace | src/tts_arranger/tts_processor.py:264-281 | in the current version a polished vctk text can end in punctuation, and so earn a sentence pause, only if the trimmed text ended in whitespace other than ' ' |
| SegmenterContent.Groups | src/tts_arranger/tts_processor.py:328-330 | the non-empty `text[m.start():m.end() - length]` of the matches, in match order: none empty, no more than there are matches |
| SegmenterContent.CutThroughSnoc | src/tts_arranger/tts_processor.py:323-336 | one more match adds its group to the groups, and to the loop's output as a fragment and a positive pause, only if the group is non-empty |
| SegmenterContent.CutThroughPaused | src/tts_arranger/tts_processor.py:323-336 | with a positive pause the match loop emits exactly, for each non-empty group in match order, the fragment with the item's voice and length followed by the pause |
| SegmenterContent.CutThroughUnpaused | src/tts_arranger/tts_processor.py:323-336 | without a pause it emits exactly the fragments of the non-empty groups, in match order |
| SegmenterContent.CutThroughNoGroup | src/tts_arranger/tts_processor.py:318-336 | when every group is empty nothing is emitted and `last_start` stays 0 |
| SegmenterContent.CutThroughLastStart | src/tts_arranger/tts_processor.py:330-336 | `last_start` is the end of the last match whose group is non-empty |
| SegmenterContent.BreakSingleItemPaused | src/tts_arranger/tts_processor.py:312-342 | one item with a positive pause: a pause passes through first, then fragment-pause pairs for the groups, then the stripped text after `last_start` when it is non-empty, with the item's voice; the length is counted exactly |
| SegmenterContent.BreakSingleItemUnpaused | src/tts_arranger/tts_processor.py:312-342 | the same without a pause: the fragments alone, then the stripped rest |
| SegmenterContent.Tidy | src/tts_arranger/tts_processor.py:315-342 | what a pass that finds nothing does to an item: a pause passes through, then the stripped text if non-empty |
| SegmenterContent.BreakSingleItemQuiet | src/tts_arranger/tts_processor.py:312-342 | an item whose text holds no delimiter is only tidied |
| SegmenterContent.BreakSingleQuiet | src/tts_arranger/tts_processor.py:291-344 | over items that hold no delimiter the whole pass only tidies each item, in order |
| SegmenterContent.WalkCharsQuiet | src/tts_arranger/tts_processor.py:401-467 | on a text with no opener, closer or leading clause mark the character loop changes nothing |
| SegmenterContent.BreakItemQuiet | src/tts_arranger/tts_processor.py:391-482 | `_break_items` on one such item only appends the tidied item and keeps `opened` |
| SegmenterContent.BreakItemsQuiet | src/tts_arranger/tts_processor.py:363-484 | over such items the whole pass only tidies each item, in order, and ends closed |
| SegmenterExamples.ParenWalkAtOpener | src/tts_arranger/tts_processor.py:434-466 | on "a (b) c" the '(' after a blank emits the stripped "a" and moves the resume point past it |
| SegmenterExamples.ParenWalkAtCloser | src/tts_arranger/tts_processor.py:439-466 | the ')' before a blank emits the pre pause, then "b" |
| SegmenterExamples.ParenthesesExample | tests/tts_arranger_test.py:89-99 | `_break_items` with ('(', ')') and 300/300 on "a (b) c" gives "a", 300 ms, "b", 300 ms, "c", with the item's voice and length, as the parenthesis test expects of its longer text |
| SegmenterExamples.DashMatches | src/tts_arranger/tts_processor.py:221 | `[—–]` has exactly one match in 'a — b.': group "a ", delimiter at 2 |
| SegmenterExamples.DashPassExample | src/tts_arranger/tts_processor.py:221 | the dash pass on 'a — b.' gives the unstripped "a ", a 300 ms pause, then "b." |
| SegmenterExamples.DashTextQuietBefore | src/tts_arranger/tts_processor.py:219-220 | the line-feed and colon passes leave 'a — b.' as it is |
| SegmenterExamples.BracketPassesExample | src/tts_arranger/tts_processor.py:241-247 | the four bracket passes only strip "a " to "a" |
| SegmenterExamples.PassesExample | src/tts_arranger/tts_processor.py:219-247 | the seven passes turn 'a — b.' into "a", 300 ms, "b." in both versions |
| SegmenterExamples.PolishSolidWord | src/tts_arranger/tts_processor.py:258-271 | a word of letters and digits polishes to itself under the vctk model |
| SegmenterExamples.PolishStopped | src/tts_arranger/tts_processor.py:264 | such a word with a full stop keeps the stop in the older snapshot and loses it in the current version |
| SegmenterExamples.FinishStoppedArranger | src/tts_arranger/tts_processor.py:273-281 | in the older snapshot it is kept with the stop and earns the 750 ms sentence pause |
| SegmenterExamples.FinishStoppedProcessor | src/tts_arranger/tts_processor.py:264-281 | in the current version it is kept without the stop and earns no pause |
| SegmenterExamples.FinishPieces | src/tts_arranger/tts_processor.py:251-281 | the final loop on a word, a 300 ms pause and a word with a stop: the older snapshot adds the 750 ms pause, the current version drops the stop |
| SegmenterExamples.PrepareDashExample | tests/tts_arranger_test.py:102-111 | `_prepare_item` on 'a — b.' under vctk: the older snapshot gives 'a', 300 ms, 'b.', 750 ms, as the test expects; the current version gives 'a', 300 ms, 'b' |
| LegacyConvert.RFind | tts_convert.py:292 | `rfind(b, 0, end)`: an occurrence ending by `end`, with none later, or -1 |
| LegacyConvert.FirstBreak | tts_convert.py:291-299 | -1 iff no break string occurs in the window |
| LegacyConvert.FirstBreakIsFirst | tts_convert.py:291-299 | the position comes from the first break string in list order that occurs |
| LegacyConvert.FindBreak | tts_convert.py:291-299 | the loop with its `break` computes `FirstBreak` |
| LegacyConvert.RFindLoop | tts_convert.py:292 | a backwards scan computes `RFind` |
| LegacyConvert.BreakLine | tts_convert.py:290-307 | for break_after > 0: at least one fragment, every fragment at most break_after long, each a copy of the item's speaker and pauses |
| LegacyConvert.BreakLineRec | tts_convert.py:290-307 | the recursion on the rest computes `BreakLine` |
| LegacyConvert.FindAndBreak | tts_convert.py:283-309 | no fragment longer than break_after, and no fewer items than the input |
| LegacyConvert.FindAndBreakItems | tts_convert.py:283-309 | the item loop computes `FindAndBreak` |
| LegacyConvert.ShortLineIsStripped | tts_convert.py:306-307 | a line that already fits is only stripped |
| LegacyConvert.HardBreakWithoutBreakString | tts_convert.py:301-305 | with no break string in the window the line is cut at break_after |
| LegacyConvert.Fragments | tts_convert.py:453-460 | one fragment per match, empty ones included, each with the call's pause_post and pause_pre 0 |
| LegacyConvert.BreakSingleItem | tts_convert.py:445-466 | an empty pattern gives nothing; otherwise the fragments, then the stripped rest, when non-empty, with the item's own pauses |
| LegacyConvert.EmptyPatternDropsEverything | tts_convert.py:450 | an empty pattern drops every item |
| LegacyConvert.EmptyFragmentIsKept | tts_convert.py:459 | a delimiter right after the previous one yields an empty item |
| LegacyConvert.KeptFragmentEndsWithDelimiter | tts_convert.py:454-459 | with keep, every fragment ends with its delimiter |
| LegacyConvert.NoDelimiterKeepsStrippedItem | tts_convert.py:463-466 | a text without the pattern comes back stripped, as one item or none |
| LegacyConvert.BreakSinglePass | tts_convert.py:442-468 | the item loop computes `BreakSingle` |
| LegacyConvert.BreakSingleInto | tts_convert.py:445-466 | one item's fragments and rest are appended |
| LegacyConvert.FragmentsInto | tts_convert.py:453-460 | the match loop appends the fragments and ends at the last match's end |
| LegacyConvert.BreakSpeakersPass | tts_convert.py:477-556 | the item loop of `_break_speakers`, with `opened` carried across items, computes `BreakSpeakers` |
| LegacyConvert.BreakSpeakersInto | tts_convert.py:486-554 | one item: the character loop, then the stripped rest |
| LegacyConvert.LWalkItem | tts_convert.py:491-545 | the character loop computes `LWalkChars` |
| LegacyConvert.LWalkAt | tts_convert.py:503-545 | one character: a flush with the call's pauses at a recognised delimiter, or punctuation glued to the last item |
| LegacyConvert.LegacyPolish | tts_convert.py:414-423 | the polished text has no surrounding whitespace |
| LegacyConvert.LegacyPolishIsArrangerPolish | tts_convert.py:414-423 | it equals the older arranger's polishing with the vctk setting, under which no full stop is added |
| LegacyConvert.EndPause | tts_convert.py:428-432 | 500 after '.', ':' or '!', 750 after '?', unchanged otherwise |
| LegacyConvert.FinishItem | tts_convert.py:410-433 | an item whose text polishes to something takes that text and its end pause; any other item is unchanged; voice and pause_pre are kept |
| LegacyConvert.Finish | tts_convert.py:410-433 | every item is finished in place; none is dropped |
| LegacyConvert.AdjustLast | tts_convert.py:435-438 | only the last item changes: its pause_pre grows by the given pause_pre, its pause_post by 500 plus the given pause_post |
| LegacyConvert.LegacyPolishText | tts_convert.py:414-423 | the chain of edits computes `LegacyPolish` |
| LegacyConvert.FinishInPlace | tts_convert.py:410-433 | the final loop computes `Finish` |
| LegacyConvert.FinishOne | tts_convert.py:411-433 | one iteration computes `FinishItem` |
| LegacyConvert.PassesInOrder | tts_convert.py:377-408 | the eight passes in the source's order |
| LegacyConvert.AdjustLastInPlace | tts_convert.py:435-438 | the three updates compute `AdjustLast` |
| LegacyConvert.LegacyPrepareItem | tts_convert.py:321-440 | `prepare_item`: clean-up, passes, final loop, last-item adjustment |
| LegacyProps.BreakSingleItemVoiced | tts_convert.py:459-466 | every fragment and the rest have the item's speaker and speaker index -1, the `TTS_Item` default of that version |
| LegacyProps.BreakSingleVoiced | tts_convert.py:442-468 | the whole pass, over items of one speaker, yields only that speaker with index -1 |
| LegacyProps.BreakSpeakersVoiced | tts_convert.py:491-554 | `_break_speakers` keeps every item's voice |
| LegacyProps.LegacyPrepareVoiced | tts_convert.py:321-440 | every item `prepare_item` yields has the input's speaker and index -1 |
| LegacyProps.SpacedEnDashesNeverSplit | tts_convert.py:403-404 | the ('– ', ' –') pass never adds an item |
| LegacyProps.OpenedCarriesOver | tts_convert.py:483-514 | the item '*x' loses its opener on its own, but is kept whole after an item '*' that left the pair open |
| LegacyProps.BlankLineYieldsEmptyItem | tts_convert.py:453-466 | 'a\n\nb' splits into 'a', an empty item, and 'b' |
| Consolidator.NewEntry | src/tts_arranger/json_processor.py:619-628 | a dict with the given text, length and speaker id |
| Consolidator.NewPauseEntry | src/tts_arranger/json_processor.py:631-634 | a dict with only a length: no text and no speaker id |
| Consolidator.Combine | src/tts_arranger/json_processor.py:142-147 | texts joined by a space, lengths added, the run's speaker id kept |
| Consolidator.MergeItemsLoop | src/tts_arranger/json_processor.py:132-156 | the loop, with a falsy open run replaced and the last run flushed, computes `MergeItems` |
| Consolidator.DropEmpty | src/tts_arranger/json_processor.py:196-201 | no longer than the input, and every dict left has stripped text or a positive length |
| Consolidator.DropEmptyKeepsExactly | src/tts_arranger/json_processor.py:196-201 | a dict is in the result exactly when it is in the input and has stripped text or a positive length |
| Consolidator.DropEmptyLoop | src/tts_arranger/json_processor.py:193-201 | the filter loop computes `DropEmpty` |
| Consolidator.Clamp | src/tts_arranger/json_processor.py:207-210 | only a dict whose speaker id is the integer -1 is capped, and only when max_pause_duration > 0 and its length exceeds it |
| Consolidator.ClampAll | src/tts_arranger/json_processor.py:207-210 | every dict is clamped in place, none moved or dropped |
| Consolidator.ClampInPlace | src/tts_arranger/json_processor.py:207-210 | the clamp loop computes `ClampAll` |
| Consolidator.OptimizeSteps | src/tts_arranger/json_processor.py:181-212 | merge, filter, merge, clamp |
| Consolidator.PrepEntry | src/tts_arranger/json_processor.py:160-177 | only a truthy text is rewritten; length and speaker id are kept |
| Consolidator.Preprocess | src/tts_arranger/json_processor.py:158-179 | same length, same order, each dict rewritten alone |
| Consolidator.PrepTextSteps | src/tts_arranger/json_processor.py:162-177 | the chain of replacements and the final strip |
| Consolidator.PreprocessInPlace | src/tts_arranger/json_processor.py:158-179 | the loop computes `Preprocess` |
| Consolidator.ItemToEntry | src/tts_arranger/json_processor.py:669-680 | a text item gives a text dict (length, speaker index as a string); a pause gives a length-only dict; anything else gives {} |
| Consolidator.ItemsToEntries | src/tts_arranger/json_processor.py:666-682 | one dict per item, in order |
| Consolidator.ChaptersToJson | src/tts_arranger/json_processor.py:664-682 | one chapter dict per chapter, with its title and its items' dicts |
| Consolidator.ChaptersToJsonLoop | src/tts_arranger/json_processor.py:664-682 | the nested loops compute `ChaptersToJson` |
| Consolidator.Distinct | src/tts_arranger/json_processor.py:56-57 | no duplicates, and exactly the models seen |
| Consolidator.FirstIndex | src/tts_arranger/json_processor.py:56-57 | a position holding the model (the first one, by `FirstIndexAtMost`) |
| Consolidator.FirstIndexAtMost | src/tts_arranger/json_processor.py:56-57 | no occurrence of a model comes before its first index |
| Consolidator.DistinctInFirstOrder | src/tts_arranger/json_processor.py:56-57 | the distinct models come in the order of their first appearance in the mapping |
| Consolidator.ModelInfo | src/tts_arranger/json_processor.py:47-58 | no models gives {}; otherwise the single key is the backend id (default '') and its value lists every model once |
| Consolidator.JsonProcessor.constructor | src/tts_arranger/json_processor.py:37 | no backend settings yet |
| Consolidator.JsonProcessor.GetModelInfo | src/tts_arranger/json_processor.py:47-58 | stores the backend settings and returns `ModelInfo` of them |
| ConsolidatorProps.MergeSeparates | src/tts_arranger/json_processor.py:136-154 | after `_merge_items` of non-empty dicts no two neighbours share a speaker id and no dict is empty |
| ConsolidatorProps.MergeOfSeparated | src/tts_arranger/json_processor.py:136-154 | non-empty dicts with no equal-id neighbours are left unchanged |
| ConsolidatorProps.FalsyHeadDropped | src/tts_arranger/json_processor.py:137-139 | an empty dict at the head is replaced by the next one without being emitted |
| ConsolidatorProps.MergeKeepsTotal | src/tts_arranger/json_processor.py:145-146 | merging keeps the total min_length |
| ConsolidatorProps.MergeKeepsNonNegative | src/tts_arranger/json_processor.py:145-146 | merging keeps lengths non-negative |
| ConsolidatorProps.DropEmptyTotal | src/tts_arranger/json_processor.py:196-201 | the filter drops no positive length, so with non-negative lengths the total is kept |
| ConsolidatorProps.OptimizeKeepsTotal | src/tts_arranger/json_processor.py:181-212 | with no clamping and non-negative lengths, `optimize` keeps the total length |
| ConsolidatorProps.MergeKeepsSpoken | src/tts_arranger/json_processor.py:143 | for non-empty dicts, the texts of the merge joined by spaces equal the input texts joined by spaces |
| ConsolidatorProps.OptimizeIdempotent | src/tts_arranger/json_processor.py:204 | `optimize` of its own output is unchanged, for every input and every cap |
| ConsolidatorProps.ThreePausesCapped | tests/reader_test.py:266-279 | three 1000 ms pause dicts of speaker id -1 become one 1500 ms pause under a 1500 cap |
| ConsolidatorProps.ThreePausesUncapped | src/tts_arranger/json_processor.py:207-210 | with cap 0 they become one 3000 ms pause |
| ConsolidatorProps.MergeKeepsNoSpeaker | src/tts_arranger/json_processor.py:140-147 | a speaker id that no input dict has does not appear after the merge |
| ConsolidatorProps.MappedPausesNeverCapped | src/tts_arranger/json_processor.py:207-210 | dicts made by `tts_project_to_json` are never clamped: `optimize` gives the same result for every cap |
| ConsolidatorProps.PrepTextShape | src/tts_arranger/json_processor.py:162-177 | a rewritten text ends in one space preceded by a non-space, and holds no bracket, ellipsis or em dash |
| ConsolidatorProps.PreprocessShape | src/tts_arranger/json_processor.py:158-179 | the same for every truthy text of the list |
| Writer.IndexOf | src/tts_arranger/tts_writer.py:169 | `list.index`: the first position of the value, or -1 exactly where Python raises |
| Writer.PopTwiceReversed | src/tts_arranger/tts_writer.py:179-187 | popping twice at index-1 of the reversed list removes positions j and j+1 of the list |
| Writer.RemoveLastArgRemovesLastPair | src/tts_arranger/tts_writer.py:177-188 | empty list unchanged; no arg raises ValueError; otherwise the last arg and its successor go, unless that arg is the final element |
| Writer.RemoveFirstArgRemovesFirstPair | src/tts_arranger/tts_writer.py:167-175 | empty list unchanged; no arg raises ValueError; arg at 0 changes nothing; arg last raises IndexError; otherwise it and its successor go |
| Writer.ChapterTitleShape | src/tts_arranger/tts_writer.py:138-139 | the title is digits, then ' - ', then the chapter title |
| Text.ZeroPadShape | src/tts_arranger/tts_writer.py:139 | `{n:0{width}}`: zeros on the left up to the width, then the digits unchanged; nothing is cut from a longer number |
| Writer.Timed | src/tts_arranger/tts_writer.py:161-163 | one timed chapter per chapter |
| Writer.TimedAt | src/tts_arranger/tts_writer.py:104-163 | chapter k keeps its items and title, starts at the sum of the earlier durations and ends that sum plus its own duration later |
| Writer.TimedIsContiguous | src/tts_arranger/tts_writer.py:104-163 | the first chapter starts at 0, each one starts where the previous ended, and lasts its duration |
| Writer.TimedEndsAtTotal | src/tts_arranger/tts_writer.py:104-163 | the last chapter ends at the sum of the durations |
| Writer.NoPaddingFromSmallerCount | src/tts_arranger/tts_writer.py:138-139 | a number with at least the count's digits is not padded |
| Writer.FreshWriterNeverPads | src/tts_arranger/tts_writer.py:138-159 | from an empty temp-file list, chapter i is titled 'i+1 - title' without leading zeros |
| Writer.PaddedAfterTen | src/tts_arranger/tts_writer.py:138-139 | with ten entries already listed, chapter 1 is titled '01 - ' |
| Writer.TtsWriter.constructor | src/tts_arranger/tts_writer.py:55 | no temp files yet; the output format is the one given |
| Writer.NewTempFiles | src/tts_arranger/tts_writer.py:106-159 | one (title, file) pair per chapter |
| Writer.NewTempFilesAt | src/tts_arranger/tts_writer.py:138-159 | the pair of chapter k is its title numbered k+1, padded to the digits of the number of entries listed before it, and part file k |
| Writer.TtsWriter.AppendPart | src/tts_arranger/tts_writer.py:138-159 | the pair of chapter i is appended after those of the chapters before it |
| Writer.TtsWriter.NextTempFile | src/tts_arranger/tts_writer.py:110-139 | the numbered title and the part file of one chapter, in the temp format of the output format |
| Writer.TtsWriter.SynthesizeChapters | src/tts_arranger/tts_writer.py:104-163 | the chapters get `Timed` times, and one (title, file) pair per chapter is appended to the temp files |
| Reader.SmartTruncateKeepsWholeWords | src/tts_arranger/tts_reader/tts_abstract_reader.py:36-39 | a short content is unchanged; a long one keeps a prefix of at most `length` characters ending right before the last space of the first length+1, empty when there is none, then the suffix |
| Reader.SmartTruncateExamples | src/tts_arranger/tts_reader/tts_abstract_reader.py:32-39 | 'abcdef' at 3 is only the suffix; 'ab cdef' at 4 is 'ab...' |
| Reader.BaseName | src/tts_arranger/tts_reader/tts_abstract_reader.py:43 | the tail of the path after its last '/' |
| Reader.StripExtension | src/tts_arranger/tts_reader/tts_abstract_reader.py:43 | a prefix of the name, cut only at its last '.' |
| Reader.FileTitle | src/tts_arranger/tts_reader/tts_abstract_reader.py:43 | the title has no '/' |
| Reader.StripExtensionDropsExtension | src/tts_arranger/tts_reader/tts_abstract_reader.py:43 | 'stem.ext' loses '.ext' |
| Reader.DotFileKeepsName | src/tts_arranger/tts_reader/tts_abstract_reader.py:43 | a dot file keeps its whole name |
| Reader.AbstractReader.constructor | src/tts_arranger/tts_reader/tts_abstract_reader.py:9-21 | preferred speakers or [], a new empty project, no title or author, m4b output |
| Reader.AbstractReader.OutputFilename | src/tts_arranger/tts_reader/tts_abstract_reader.py:23-30 | the project's author, ' - ', the project's title |
| Reader.AbstractReader.Load | src/tts_arranger/tts_reader/tts_abstract_reader.py:41-43 | the title becomes the file name without directory and extension; the output file name is unchanged |
| Reader.AbstractReader.LoadRaw | src/tts_arranger/tts_reader/tts_abstract_reader.py:45-47 | an empty author or title keeps the current one; the output file name is unchanged |

## Left out

- Speech synthesis and model management are foreign calls and are not modelled. This covers Coqui, Piper and speaker-name resolution.
- Audio, floating point and timing are not modelled.
  - This covers pydub segments, `_compress`, `pad_length`, the volume factor and ffprobe.
  - Chapter durations are `nat` inputs to `Writer.TtsWriter.SynthesizeChapters`.
  - Lengths are integers, although the source types some of them as floats.
- File, network and process I/O is not modelled.
  - Checker files arrive already parsed as `Option<seq<JsonEntry>>`, with `None` for a missing file.
  - Also left out: pickle, metadata and temp files, cover images, ffmpeg and `subprocess`.
  - The writer keeps only the file name of each part.
- The regex replace table, the German number rewriting and the clean-up substitutions of `tts_convert.py` are opaque parameters (`string -> string`).
  - The table is loaded from CSV.
  - The clean-up substitutions are at tts_convert.py:335-371.
  - Only the delimiter patterns are modelled, by the scanner in `Scan`.
- HtmlConverter.RuleOf: entry conversion starts from a `JsonEntry` whose keys are present and whose properties are already integers, because JSON value types belong to the file parsing, which is not modelled. So the model does not raise the `KeyError` of a missing `conditions`, `name`, `arg` or `properties` key (src/tts_arranger/tts_html_converter.py:283, 289, 290, 309). It also does not model `int()` at lines 317 and 319, which turns "2" into 2, truncates 2.7 to 2 and raises `ValueError` on "x". HtmlConverter.ConditionsOf and HtmlConverter.ConvertConditions share this limit.
- HTMLParser tokenisation and character references are not modelled. The converter is fed abstract start, data and end events.
- Logging, progress callbacks, `print` and `sys.exit` are not modelled.
- In-place mutation is modelled by value.
  - `_merge_similar_items` edits the input's items through the alias `merged_item`.
  - `final_items[-1].text += c` also edits the input list.
  - `preprocess` and the clamp edit dicts in place.
  - The argument functions reverse and pop the caller's list.
  - The model returns new values. Effects on other references to the same objects are not captured.
- `TTS_Project.date` (`datetime.min`) is not modelled.
- Dict keys other than `text`, `min_length` and `speaker_id` are not modelled. A missing key is `None`. `text` holds a string and `min_length` an integer. Only `speaker_id` can also hold null (`SpeakerId.Null`) besides a string or an integer; a null `text` or `min_length` is not modelled, nor are other value types.
- `_find_and_break` loops forever on a non-empty text when `break_after <= 0`. The model requires `break_after > 0`.
- `_find_and_break` is commented out of every `prepare_item`. It is modelled on its own.
- `_remove_last_arg` at src/tts_arranger/json_processor.py:485-511 has the same logic as src/tts_arranger/tts_writer.py:177-188. It is modelled once, as `Writer.RemoveLastArg`.
- `Checker.Holds` (the condition check) has no row because it is a predicate without a contract. `Checker.LastConditionDecides` and `Checker.IgnoreMatchesOnAnyCondition` characterise it through `determine`.
- Segmenter.Trim: only its length bound is stated in its own contract. The two rules are pinned down by `SegmenterProps.TrimWordWithTail` and `SegmenterProps.PolishWordWithTail`.
- Segmenter.MergeSimilar: its own contract bounds only the length. Its meaning is in `MergeSeparates`, `MergeOfSeparated`, `MergeKeepsTotalLength`, `ArrangerMergeKeepsText` and `ProcessorMergeJoinsWithSpaces`.
- The segmenter's disabled passes (quotes, `break_start_end`, sentence breaking) are commented out in the source and are not modelled.
- The readers that only glue containers together are not part of this model: EPUB, DOCX, HTML-based, SRT and plain text.

## Findings

| source | as written | input that shows it | evidently intended | confidence | as-written member | corrected member |
|---|---|---|---|---|---|---|
| src/tts_arranger/tts_html_converter.py:149 | `TTS_Item(data, properties.speaker_idx)` passes the index as the second positional field, which is `speaker` (src/tts_arranger/items/tts_item.py:21-24), so `speaker_idx` stays 0 | text `test1 ` under a rule with speaker index 1: the item's speaker_idx is 0, but tests/reader_test.py:30 expects 1 | the item takes the rule's speaker index (`speaker_idx=properties.speaker_idx`) | not executed | HtmlConverter.DataItemAsWritten, HtmlConverter.AsWrittenDropsSpeakerIndex | HtmlConverter.DataItem, ConverterExamples.NestedTagsExample |
