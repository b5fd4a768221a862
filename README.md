# anki-to-quiz-app-python, quiz core in Dafny

This project models the quiz core of a desktop application that turns Anki decks into
multiple-choice tests. It has two parts.

- **The deck session** (`ankidata/core.py`). `AnkiCore` finds the decks that hold notes of the
  quiz note type ("Test by MX"). `Deck` loads one deck's notes into four parallel lists:
  question texts, option lists, correct-index lists and image packs. It then shuffles the
  current question's options, advances through the questions and scores selections.
- **The Word export** (`docxsave/core.py`). `exportAnki.export` writes one heading per
  question, then the question's pictures, then its options. A correct option appears twice:
  highlighted, then plain.

## How the system is modelled

- **The collection.** The Anki collection is an immutable `Collection` value. Its decks are a
  list. Three function fields stand for the library calls the code makes:
  - the cards of a deck by name (`find_cards`, with `get_card` on each id);
  - `media.strip`;
  - the base64 payloads of the media files whose names end with a reference (`os.walk`, file
    reads and `b64encode`).
- **Opening the collection.** `_connectAnkiDB` is the `Connection` parameter of `Init`: either
  an open collection or one of the three failures.
- **Shuffling.** `random.shuffle` is the `perm` parameter of `Shuffle`. Any permutation of the
  option positions may be passed.
- **The two classes.** `AnkiCore` and `Deck` are classes whose methods update their fields, as
  in the source. `Deck.Valid()` is the session invariant every method keeps:
  - the four lists have the same length, and `questionsNum` is that length;
  - a deck is loaded exactly when it has a question;
  - `index` is 0 or below `questionsNum`;
  - every entry has a non-empty question, at least one option, no empty option and an image
    pack.
- **The text clean-up.** `_clearString` is 29 Python `str.replace` calls applied in order
  (`Markup.Substitution`). `_correctToIndex` turns a letter string into option indices
  (`Markup.LetterIndices`). The `<img src="...">` scan follows `re.finditer`'s left-to-right,
  non-overlapping matching.
- **The document.** A document is the list of blocks appended to it: `Heading`, `Para`,
  `ParaCorrect`, `Picture` and `Table`. `Docx.ExportBlocks` specifies everything `export`
  appends.

### Behaviour that differs from a natural reading

- **Scoring.** Scoring is not exact-set equality. The code awards a point when the selection
  is non-empty and every selected index is correct (ankidata/core.py:147-155). So with
  options 0 and 2 correct, selecting 0 alone scores (`SubsetSelectionScores`).
- **Entries without a correct index.** A correct field made only of spaces passes the
  emptiness test but names no option (ankidata/core.py:244-250), so an entry can have an
  empty correct list (`SpacesOnlyCorrectField`).
- **Score bound.** Nothing in `updateScore` stops it being called twice on one question, so
  the score can exceed the number of entries. The model only keeps `score >= 0`.

### Other behaviour the model makes explicit

- **Repeated loading.** `loadCard` never resets `cards`, and `_loadQuestions` parses every
  card in `cards` again. A second `loadCard` therefore appends the earlier entries again.
- **Dropped diagnostics.** `_loadQuestions` collects the skipped questions in a local list
  and then drops it. `errors` never changes.
- **Double decoding.** `_clearString` applies its substitutions one after another over the
  whole string, so `"&amp;quot;"` becomes a double quote (`ClearStringDecodesTwice`).
- **One-element tuple.** `getQuestion` returns the one-element tuple `(question,)`, because
  its return statement ends with a comma. The model represents it as `OneTuple`.
- **Unreachable branches.** The `-2` branches of `nextQuestion` and `updateScore` cannot be
  taken while the session invariant holds. The model keeps them as dead branches.
- **Dropped image packs.** `export` drops a `None` or `""` image pack entirely, so every later
  pack moves one question earlier (`PackObjectsAligned`, `PackObjectsDropped`).
- **Unused deck name.** `export` computes a sanitised deck name and never uses it.

## Model

| member | source | states |
|---|---|---|
| Markup.Substitution | ankidata/core.py:273-301 | the 29 substitutions in source order; patterns and replacements are non-empty; the first four are the `<br>` forms, each replaced by a newline; the others are entities starting with '&' |
| Markup.ClearString | ankidata/core.py:273-302 | defines `_clearString` on a string: the table's substitutions applied one after another, each to the whole string |
| Markup.ClearStringPlain | ankidata/core.py:273-302 | a string with no '<' and no '&' comes back unchanged |
| Markup.ClearStringNonEmpty | ankidata/core.py:273-302 | the cleaned string is empty exactly when the input is |
| Markup.ClearStringLineBreak | ankidata/core.py:273-276 | any of the four `<br>` forms after text without '<' or '&' becomes one newline, and the rest is cleaned on its own |
| Markup.ClearStringAmpersand | ankidata/core.py:280 | `&amp;` between plain texts becomes `&` when no lower-case letter follows it |
| Markup.ClearStringExample | ankidata/core.py:273-302 | "A &amp; B<br>C" becomes "A & B", a newline, then "C" |
| Markup.ClearStringDecodesTwice | ankidata/core.py:280-281 | "&amp;quot;" becomes a double quote, because the substitutions run in sequence |
| Markup.ClearStrings | ankidata/core.py:268-271 | the list branch: every element is replaced in place by its cleaned text; the length is kept |
| Markup.CorrectToIndex | ankidata/core.py:312-318 | the loop over the upper-cased field with spaces removed yields exactly `LetterIndices` of the field |
| Markup.LetterIndices | ankidata/core.py:312-318 | defines the decoding of a correct field: each character that is not a space, upper-cased, gives its code minus 65 |
| Markup.StrippedLetters | ankidata/core.py:312-314 | upper-casing and deleting spaces leaves exactly the characters that are decoded, in order |
| Markup.LetterIndicesLength | ankidata/core.py:312-318 | one index per character that is not a space |
| Markup.LetterIndicesAppend | ankidata/core.py:316-317 | decoding keeps the order of the characters |
| Markup.LetterIndicesRange | ankidata/core.py:317 | a field of ASCII letters and spaces names only indices 0 to 25 |
| Markup.LetterIndicesExample | ankidata/core.py:311-318 | "A c" names options 0 and 2; "b" names option 1 |
| Markup.ImgSources | ankidata/core.py:354-358 | every captured image reference is non-empty and holds no double quote |
| Markup.ImgSourcesNone | ankidata/core.py:356-358 | text without '<' has no image reference |
| Markup.ImgSourcesTag | ankidata/core.py:356-358 | a complete `<img src="...">` at the start is reported, and the scan resumes after its closing quote |
| Permutations.PermutationBounds | ankidata/core.py:71 | a shuffle of n items is a list of length n with entries in 0..n-1 |
| Permutations.PermutePreservesMultiset | ankidata/core.py:71 | reordering a list by a permutation keeps every element as often as it occurred |
| AnkiData.ModelCards | ankidata/core.py:43-47 | defines the cards `loadCard` keeps: those of the model's note type, in order |
| AnkiData.SupportedDecks | ankidata/core.py:417-428 | defines the decks `_loadSupportedDecks` keeps: those with a card of the model, in collection order |
| AnkiData.ModelCardsMembers | ankidata/core.py:43-47 | a card is appended exactly when it is in the deck and has the model's note type |
| AnkiData.SupportedDecksMembers | ankidata/core.py:419-428 | a deck is supported exactly when it is in the collection and has a card of the model |
| AnkiData.SupportedDecksInOrder | ankidata/core.py:419-428 | the supported decks keep the collection's order |
| AnkiData.FindImages | ankidata/core.py:348-361 | defines `findImages`: the question as `media.strip` leaves it, and its image references |
| AnkiData.FoundMedia | ankidata/core.py:328-343 | defines the payloads found for the references: every matching media file of each reference, reference after reference |
| AnkiData.NonEmptyOnly | ankidata/core.py:241 | the filtered list holds no empty string |
| AnkiData.NonEmptyOnlyMembers | ankidata/core.py:241 | a string is kept exactly when it is in the list and is not empty |
| AnkiData.NonEmptyOnlyAppend | ankidata/core.py:241 | filtering distributes over concatenation, so the kept strings stay in order |
| AnkiData.Options | ankidata/core.py:240-241 | defines the options of a note: the fields between the first and the last, which is none for fewer than three fields, without empty ones |
| AnkiData.ClearAll | ankidata/core.py:252 | the options, each cleaned, with their number kept |
| AnkiData.ParseCard | ankidata/core.py:236-253 | defines one iteration of `_loadQuestions`: None when the correct field, the options or the stripped question is empty; otherwise the cleaned question, the cleaned options, the decoded correct field and the image pack |
| AnkiData.ParseCards | ankidata/core.py:235-253 | defines the entries of all cards: each card's entry in card order, skipped cards left out |
| AnkiData.ImagePack | ankidata/core.py:320-346 | the pack is never empty; it is `[None]` exactly when no media file matched; otherwise every entry is a payload |
| AnkiData.ParseCardShape | ankidata/core.py:236-253 | a note is skipped exactly when its stripped question, its option list or its correct field is empty; a kept note gives a well-formed entry whose correct indices decode the last field, one per non-space character |
| AnkiData.SpacesOnlyCorrectField | ankidata/core.py:244-250 | a correct field of spaces only is kept, with no correct index |
| AnkiData.ParseCardsEmpty | ankidata/core.py:235-255 | at most one entry per card; no entry exactly when every card is skipped |
| AnkiData.ParseCardsWellFormed | ankidata/core.py:235-253 | every parsed entry is well formed |
| AnkiData.Shuffled | ankidata/core.py:55-81 | defines what `shuffle` stores for a permutation `perm`: the options reordered by `perm`, and the positions that now hold a formerly correct option |
| AnkiData.ShuffleOptions | ankidata/core.py:61-78 | the reordered options and the new correct list are exactly the shuffle of the tagged options by `perm` |
| AnkiData.TagOptions | ankidata/core.py:64-69 | each option paired with whether its index is listed as correct |
| AnkiData.FlaggedOf | ankidata/core.py:75-78 | the positions of the options tagged as correct, as `Flagged` lists them |
| AnkiData.FlaggedPositions | ankidata/core.py:75-78 | the listed positions are strictly increasing and are exactly the tagged ones |
| AnkiData.ShuffledWellFormed | ankidata/core.py:73-81 | a shuffled well-formed entry is still well formed |
| AnkiData.ShuffleKeepsTaggedOptions | ankidata/core.py:64-81 | shuffling keeps the multiset of (option text, is correct) pairs and the number of options |
| AnkiData.ShuffleCorrectPositions | ankidata/core.py:73-81 | position k holds the option from `perm[k]`; the new correct list is strictly increasing, lies below the option count, and lists k exactly when `perm[k]` was correct |
| AnkiData.Awards | ankidata/core.py:147-155 | defines the scoring rule: the selection is non-empty and every selected index is correct |
| AnkiData.ExactSelectionScores | ankidata/core.py:147-155 | selecting exactly the correct options scores, in any order |
| AnkiData.SubsetSelectionScores | ankidata/core.py:147-155 | with options 0 and 2 correct, selecting 0 alone scores |
| AnkiData.WrongOptionNeverScores | ankidata/core.py:148-151 | a selection holding an option that is not correct never scores |
| AnkiData.AnkiCore.constructor | ankidata/core.py:365-375 | no collection, no deck lists, not initialised |
| AnkiData.AnkiCore.LoadSupportedDecks | ankidata/core.py:409-435 | -1 before initialisation; otherwise -2 with nothing changed when no deck is supported, or 0 with the supported decks and their names recorded |
| AnkiData.AnkiCore.Init | ankidata/core.py:377-388 | initialised once a connection succeeds; the status is the connection's code, or -4 when the collection is open but no deck is supported |
| AnkiData.AnkiCore.GetDeck | ankidata/core.py:398-407 | a fresh, empty, valid deck session with the given name on this core |
| AnkiData.Deck.constructor | ankidata/core.py:11-30 | an empty, unloaded session at index 0 with score 0 |
| AnkiData.Deck.LoadCard | ankidata/core.py:32-53 | -1 exactly when the name is not a supported deck; otherwise the deck's model cards are appended, and parsing all cards appends one entry per kept card; 0 and loaded when there is a question, -2 otherwise; index, score, wrong list and errors are unchanged |
| AnkiData.Deck.LoadQuestions | ankidata/core.py:224-257 | the four lists gain the parsed entries of all cards; `questionsNum` becomes the list length; -1 exactly when there is no question; `errors` is unchanged |
| AnkiData.Deck.ReadCard | ankidata/core.py:236-253 | one iteration of the loading loop gives the card's parsed entry, or None for a skipped card |
| AnkiData.Deck.Append | ankidata/core.py:250-253 | the four lists each gain the entry's part, in lockstep |
| AnkiData.Deck.GetImage64 | ankidata/core.py:320-346 | the payloads of every matching media file, in reference order, or `[None]` when there are none |
| AnkiData.Deck.Shuffle | ankidata/core.py:55-81 | changes nothing before loading; otherwise replaces the current options and correct list by the shuffle of `perm` and keeps the multiset of (option, is correct) pairs; every other entry and field is unchanged |
| AnkiData.Deck.NextQuestion | ankidata/core.py:83-93 | -1 with the index kept at the last question; otherwise 0 with the index one further; a loaded deck's index stays below the question count |
| AnkiData.Deck.UpdateScore | ankidata/core.py:142-158 | -1 and nothing changed when not loaded; otherwise 0, with one more point when the selection scores, or else the current question appended to the wrong list |
| AnkiData.Deck.GetQuestion | ankidata/core.py:103-114 | blank exactly when not loaded; otherwise the current, non-empty question as a one-element tuple |
| AnkiData.Deck.GetAnswers | ankidata/core.py:116-127 | empty exactly when not loaded; otherwise the current options |
| AnkiData.Deck.GetImages | ankidata/core.py:129-140 | empty exactly when not loaded; otherwise the current image pack |
| Docx.PicturesOf | docxsave/core.py:54-58 | a pack's pictures are at most its length, and each is one of its non-empty entries |
| Docx.PicturesOfMembers | docxsave/core.py:54-58 | a picture is kept exactly when the pack holds it and it is not "" |
| Docx.PicturesOfAppend | docxsave/core.py:54-58 | the pictures of two packs in a row are those of the first, then those of the second, so pack order is kept |
| Docx.PackObjects | docxsave/core.py:50-59 | defines `imgObj` for a pack list: one picture list per list pack, None and "" packs dropped |
| Docx.ImageObjects | docxsave/core.py:48-59 | defines `imgObj`: empty when `images` is None |
| Docx.PackObjectsAligned | docxsave/core.py:49-59 | when every pack is a list, `imgObj[i]` holds the pictures of pack i |
| Docx.PackObjectsDropped | docxsave/core.py:52-53 | a None or "" pack leaves `imgObj` shorter than the pack list |
| Docx.SafeName | docxsave/core.py:44-46 | the sanitised name has the input's length; each ' ', '/' and '\\' becomes '_', and every other character is kept |
| Docx.PictureBlocks | docxsave/core.py:63-65 | defines the pictures of one question: one picture block per image, in order |
| Docx.AnswerBlocks | docxsave/core.py:66-69 | defines the option paragraphs of one question: a highlighted copy before each correct option, then the option itself |
| Docx.QuestionBlocks | docxsave/core.py:62-69 | defines one question's blocks: its heading, its pictures, its option paragraphs |
| Docx.ExportBlocks | docxsave/core.py:61-69 | defines everything `export` appends: the blocks of each question, question after question |
| Docx.AnswerBlocksParagraphs | docxsave/core.py:66-69 | a question's plain paragraphs are its options, in order |
| Docx.AnswerBlocksHighlighted | docxsave/core.py:66-68 | a question's highlighted paragraphs are its correct options, in option order |
| Docx.AnswerBlocksHeadings | docxsave/core.py:66-69 | the option paragraphs hold no heading |
| Docx.HighlightFollowedByPlain | docxsave/core.py:67-69 | every highlighted paragraph is directly followed by a plain one with the same text, and is a correct option |
| Docx.QuestionBlocksText | docxsave/core.py:62-69 | one question gives one heading with its text, its options as plain paragraphs and its correct options highlighted |
| Docx.ExportHeadings | docxsave/core.py:61-62 | the export's headings are the questions, one each, in order |
| Docx.ExportParagraphs | docxsave/core.py:61-69 | the export's plain paragraphs are all the options, question after question |
| Docx.ExportBlocksPrefix | docxsave/core.py:61-69 | the blocks of the first i questions are a prefix of those of the first n |
| Docx.ExportBlocksLayout | docxsave/core.py:61-69 | for every question i of the export: the blocks of the questions before it come first, then its heading, then its pictures in order, then its option paragraphs, which end where the blocks of the first i + 1 questions end |
| Docx.DocxSave.constructor | docxsave/core.py:8-10 | an empty document for the path |
| Docx.DocxSave.AddParagraph | docxsave/core.py:12-13 | appends one plain paragraph |
| Docx.DocxSave.AddParagraphCorrect | docxsave/core.py:15-19 | appends one highlighted paragraph |
| Docx.DocxSave.AddHeading | docxsave/core.py:21-22 | appends one heading of the given level |
| Docx.DocxSave.AddPicture | docxsave/core.py:24-25 | appends one picture |
| Docx.DocxSave.AddTable | docxsave/core.py:27-28 | appends one table |
| Docx.DocxSave.Save | docxsave/core.py:30-35 | None when the file was written; False when writing raised |
| Docx.ExportAnki.constructor | docxsave/core.py:39-41 | a fresh, empty document for the path |
| Docx.ExportAnki.ImageObjectsOf | docxsave/core.py:48-59 | builds `imgObj` exactly as `ImageObjects` specifies |
| Docx.ExportAnki.WriteQuestion | docxsave/core.py:62-69 | appends exactly one question's heading, pictures and option paragraphs |
| Docx.ExportAnki.Export | docxsave/core.py:43-72 | appends exactly `ExportBlocks` for all questions; the answer is False exactly when saving failed |

## Left out

- Locating and opening the collection (`_connectAnkiDB`, `_getAnkiPath` and the per-OS path
  functions) goes through the filesystem and environment variables. `Init` takes the outcome as
  its `Connection` parameter. The source never initialises `collection_path`
  (ankidata/core.py:448-455), so a missing collection file raises a `NameError` instead of
  returning -2. The model keeps the documented -2.
- The media lookup and the base64 encoding of `_getImage64` are the `mediaFiles` function of
  the collection. `media.strip` is the `strip` function, and anki's deck search is `findCards`.
- `Export` decodes no base64: a picture keeps its payload text.
- Saving the `.docx` file is the `written` parameter of `Save` and `Export`. Fonts, highlight
  colour, boldness, picture width and the file format are not modelled.
- `random.shuffle`'s randomness is the caller's `perm`.
- AnkiData.Deck.LoadCard: requires a recorded supported-deck list. Before that, the source's
  `in` test on `None` raises `TypeError`, and exceptions are not modelled.
- Docx.ExportAnki.Export: requires at least as many option lists, correct lists and picture
  lists as questions. The source raises `IndexError` otherwise, and exceptions are not
  modelled.
- `str.upper` is modelled for ASCII letters only. Other characters are kept as they are.
- The trivial getters return a field and have no branches: `getErrors`, `getScore`,
  `getMaxScore`, `getWrongQuestions`, `getDeckName`, `getQuestionsNum`, `getQuestionIndex`,
  `isLoaded` and `getDecksNames`.
- `getScorePercentage` uses floating-point division and `round`.
- The `deckName` parameter of `_loadQuestions` is unused. The `deckWithModel` field of `Deck`
  is never read.
- The graphical interface (`gui/core.py`) and packaging (`setup.py`) are not part of this model.
