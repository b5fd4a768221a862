/** The quiz core of ankidata/core.py: the read-only collection it queries, the parsing of
    notes into question entries, `AnkiCore` (deck discovery) and `Deck` (one quiz session). */
module AnkiData {
  import opened Wrappers
  import opened PyStrings
  import opened Markup
  import opened Permutations

  /** The note type whose notes are quiz questions (MODEL_NAME). */
  const ModelName: string := "Test by MX"

  /** The fields of a note; a note always has at least one. */
  type Fields = s: seq<string> | |s| >= 1 witness [""]

  /** A card as the application sees it: the name of its note type and its note's fields. */
  datatype Card = Card(noteType: string, fields: Fields)

  /** A deck record of `decks.all()`. */
  datatype DeckRecord = DeckRecord(id: int, name: string)

  /** The open collection, read-only. The three functions stand for library calls:
      `findCards(name)` for `find_cards('deck:"name"')` with every id resolved by `get_card`,
      `strip` for `media.strip`, and `mediaFiles(ref)` for the base64 text of every file of
      the media folder whose name ends with `ref`. */
  datatype Collection = Collection(
    decks: seq<DeckRecord>,
    findCards: string -> seq<Card>,
    strip: string -> string,
    mediaFiles: string -> seq<string>)

  /** The outcome of `_connectAnkiDB`, which locates and opens the collection file. */
  datatype Connection = Connected(collection: Collection) | PathNotFound | CollectionNotFound | OpenFailed

  function ConnectStatus(c: Connection): int {
    match c
    case Connected(_) => 0
    case PathNotFound => -1
    case CollectionNotFound => -2
    case OpenFailed => -3
  }

  // ---------------------------------------------------------------------------------
  // Deck discovery

  predicate HasModelCard(cards: seq<Card>, model: string) {
    exists i :: 0 <= i < |cards| && cards[i].noteType == model
  }

  /** The decks, in order, that hold at least one card of note type `model`. */
  function SupportedDecks(c: Collection, decks: seq<DeckRecord>, model: string): seq<DeckRecord> {
    if decks == [] then []
    else
      var last := decks[|decks| - 1];
      SupportedDecks(c, decks[..|decks| - 1], model) +
        (if HasModelCard(c.findCards(last.name), model) then [last] else [])
  }

  function Names(decks: seq<DeckRecord>): (names: seq<string>)
    ensures |names| == |decks|
  {
    seq(|decks|, i requires 0 <= i < |decks| => decks[i].name)
  }

  /** `a` is `b` with some elements left out, the rest kept in order. */
  predicate IsSubsequence<T(==)>(a: seq<T>, b: seq<T>)
    decreases |b|
  {
    if a == [] then true
    else if b == [] then false
    else
      (a[|a| - 1] == b[|b| - 1] && IsSubsequence(a[..|a| - 1], b[..|b| - 1])) ||
      IsSubsequence(a, b[..|b| - 1])
  }

  /** A deck is supported exactly when it is one of the decks and has a card of the model. */
  lemma {:induction false} SupportedDecksMembers(c: Collection, decks: seq<DeckRecord>, model: string, d: DeckRecord)
    ensures d in SupportedDecks(c, decks, model) <==> d in decks && HasModelCard(c.findCards(d.name), model)
  {
    if decks != [] {
      var front := decks[..|decks| - 1];
      assert decks == front + [decks[|decks| - 1]];
      SupportedDecksMembers(c, front, model, d);
    }
  }

  /** The supported decks keep the collection's order. */
  lemma {:induction false} SupportedDecksInOrder(c: Collection, decks: seq<DeckRecord>, model: string)
    ensures IsSubsequence(SupportedDecks(c, decks, model), decks)
  {
    if decks != [] {
      var front := decks[..|decks| - 1];
      var last := decks[|decks| - 1];
      SupportedDecksInOrder(c, front, model);
      var s := SupportedDecks(c, front, model);
      if HasModelCard(c.findCards(last.name), model) {
        assert (s + [last])[..|s|] == s;
      } else {
        assert s + [] == s;
        assert s != [] ==> IsSubsequence(s, front);
      }
    }
  }

  // ---------------------------------------------------------------------------------
  // Parsing notes into question entries

  /** A parsed note: question text, options, correct option indices, image pack. */
  datatype Entry = Entry(question: string, answers: seq<string>, correct: seq<int>, images: seq<Option<string>>)

  /** The cards whose note type is `model`, in order. */
  function ModelCards(cards: seq<Card>, model: string): seq<Card> {
    if cards == [] then []
    else
      var last := cards[|cards| - 1];
      ModelCards(cards[..|cards| - 1], model) + (if last.noteType == model then [last] else [])
  }

  /** Exactly the cards of note type `model` are kept. */
  lemma {:induction false} ModelCardsMembers(cards: seq<Card>, model: string, card: Card)
    ensures card in ModelCards(cards, model) <==> card in cards && card.noteType == model
  {
    if cards != [] {
      var front := cards[..|cards| - 1];
      assert cards == front + [cards[|cards| - 1]];
      ModelCardsMembers(front, model, card);
    }
  }

  /** The list without its empty strings. */
  function NonEmptyOnly(s: seq<string>): (r: seq<string>)
    ensures forall i :: 0 <= i < |r| ==> |r[i]| > 0
  {
    if s == [] then []
    else NonEmptyOnly(s[..|s| - 1]) + (if s[|s| - 1] != "" then [s[|s| - 1]] else [])
  }

  /** Exactly the non-empty strings are kept. */
  lemma {:induction false} NonEmptyOnlyMembers(s: seq<string>, x: string)
    ensures x in NonEmptyOnly(s) <==> x in s && x != ""
  {
    if s != [] {
      var front := s[..|s| - 1];
      assert s == front + [s[|s| - 1]];
      NonEmptyOnlyMembers(front, x);
    }
  }

  /** Filtering distributes over concatenation, so the kept strings stay in order. */
  lemma {:induction false} NonEmptyOnlyAppend(a: seq<string>, b: seq<string>)
    ensures NonEmptyOnly(a + b) == NonEmptyOnly(a) + NonEmptyOnly(b)
    decreases |b|
  {
    if b == [] {
      assert a + b == a;
    } else {
      var front := b[..|b| - 1];
      assert (a + b)[..|a + b| - 1] == a + front;
      NonEmptyOnlyAppend(a, front);
    }
  }

  /** The option fields: Python's `fields[1:n-1]`, which is empty when n < 3, without empties. */
  function Options(fields: Fields): seq<string> {
    NonEmptyOnly(if |fields| >= 2 then fields[1..|fields| - 1] else [])
  }

  /** `_clearString` on a list, as a value. */
  function ClearAll(s: seq<string>): (r: seq<string>)
    ensures |r| == |s|
  {
    seq(|s|, i requires 0 <= i < |s| => ClearString(s[i]))
  }

  /** The media payloads found for the references, in reference order. */
  function FoundMedia(media: string -> seq<string>, refs: seq<string>): seq<string> {
    if refs == [] then [] else FoundMedia(media, refs[..|refs| - 1]) + media(refs[|refs| - 1])
  }

  /** What `_getImage64` returns: the payloads found, or `[None]` when there are none. */
  function ImagePack(c: Collection, refs: seq<string>): (pack: seq<Option<string>>)
    ensures |pack| > 0
    ensures pack == [None] <==> FoundMedia(c.mediaFiles, refs) == []
    ensures forall i :: 0 <= i < |pack| ==> (pack[i].Some? <==> FoundMedia(c.mediaFiles, refs) != [])
  {
    var found := FoundMedia(c.mediaFiles, refs);
    if found == [] then [None]
    else
      var pack := seq(|found|, i requires 0 <= i < |found| => Some(found[i]));
      assert pack[0] != None;
      pack
  }

  /** `findImages`: the question text with media stripped, and the image references. */
  function FindImages(c: Collection, question: string): (string, seq<string>) {
    (c.strip(question), ImgSources(question))
  }

  /** The entry `_loadQuestions` makes of one card, or None when it skips the card. */
  function ParseCard(c: Collection, card: Card): Option<Entry> {
    var fields := card.fields;
    var (question, refs) := FindImages(c, fields[0]);
    var options := Options(fields);
    var correctField := fields[|fields| - 1];
    if |correctField| == 0 || |options| == 0 || |question| == 0 then None
    else Some(Entry(ClearString(question), ClearAll(options), LetterIndices(correctField), ImagePack(c, refs)))
  }

  /** The entries of the cards that are kept, in card order. */
  function ParseCards(c: Collection, cards: seq<Card>): seq<Entry> {
    if cards == [] then []
    else
      ParseCards(c, cards[..|cards| - 1]) +
        match ParseCard(c, cards[|cards| - 1]) case Some(e) => [e] case None => []
  }

  lemma {:induction false} ParseCardsSnoc(c: Collection, cards: seq<Card>, i: nat, entry: Option<Entry>)
    requires i < |cards| && entry == ParseCard(c, cards[i])
    ensures ParseCards(c, cards[..i + 1]) ==
      ParseCards(c, cards[..i]) + match entry case Some(e) => [e] case None => []
  {
    assert cards[..i + 1][..i] == cards[..i];
  }

  /** An entry is well formed: a question, at least one option, no empty option, an image pack. */
  predicate WellFormed(e: Entry) {
    |e.question| > 0 && |e.answers| > 0 && |e.images| > 0 &&
    forall j :: 0 <= j < |e.answers| ==> |e.answers[j]| > 0
  }

  /** A card is skipped exactly when its stripped question, its option list or its correct
      field is empty; a kept card gives a well-formed entry whose correct indices decode the
      last field, one per non-space character. */
  lemma {:induction false} ParseCardShape(c: Collection, card: Card)
    ensures ParseCard(c, card).None? <==>
      |c.strip(card.fields[0])| == 0 || |Options(card.fields)| == 0 || |card.fields[|card.fields| - 1]| == 0
    ensures ParseCard(c, card).Some? ==>
      var e := ParseCard(c, card).value;
      var last := card.fields[|card.fields| - 1];
      WellFormed(e) && |e.answers| == |Options(card.fields)| &&
      e.correct == LetterIndices(last) && |e.correct| == |last| - multiset(last)[' ']
  {
    var question := c.strip(card.fields[0]);
    var options := Options(card.fields);
    ClearStringNonEmpty(question);
    forall j | 0 <= j < |options| ensures |ClearString(options[j])| > 0 {
      ClearStringNonEmpty(options[j]);
    }
    LetterIndicesLength(card.fields[|card.fields| - 1]);
  }

  lemma {:induction false} ParsedWellFormed(c: Collection, card: Card, e: Entry)
    requires ParseCard(c, card) == Some(e)
    ensures WellFormed(e)
  {
    ParseCardShape(c, card);
  }

  /** A correct field of spaces only passes the emptiness test and names no option. */
  lemma {:induction false} SpacesOnlyCorrectField(c: Collection, card: Card)
    requires var last := card.fields[|card.fields| - 1]; |last| > 0 && forall i :: 0 <= i < |last| ==> last[i] == ' '
    requires |c.strip(card.fields[0])| > 0 && |Options(card.fields)| > 0
    ensures ParseCard(c, card).Some? && ParseCard(c, card).value.correct == []
  {
    var last := card.fields[|card.fields| - 1];
    LetterIndicesLength(last);
    assert multiset(last)[' '] == |last| by { SpacesCount(last); }
  }

  lemma {:induction false} SpacesCount(s: string)
    requires forall i :: 0 <= i < |s| ==> s[i] == ' '
    ensures multiset(s)[' '] == |s|
  {
    if s != [] {
      assert s == [s[0]] + s[1..];
      SpacesCount(s[1..]);
    }
  }

  /** Kept cards give one entry each; no entry appears without a kept card. */
  lemma {:induction false} ParseCardsEmpty(c: Collection, cards: seq<Card>)
    ensures |ParseCards(c, cards)| <= |cards|
    ensures ParseCards(c, cards) == [] <==> forall i :: 0 <= i < |cards| ==> ParseCard(c, cards[i]).None?
  {
    if cards != [] {
      var front := cards[..|cards| - 1];
      var last := cards[|cards| - 1];
      ParseCardsEmpty(c, front);
      var tail := match ParseCard(c, last) case Some(e) => [e] case None => [];
      assert ParseCards(c, cards) == ParseCards(c, front) + tail;
      if ParseCard(c, last).None? {
        assert tail == [];
        forall i | 0 <= i < |cards| && i != |cards| - 1 ensures cards[i] == front[i] { }
      }
    }
  }

  /** Every parsed entry is well formed. */
  lemma {:induction false} ParseCardsWellFormed(c: Collection, cards: seq<Card>)
    ensures forall i :: 0 <= i < |ParseCards(c, cards)| ==> WellFormed(ParseCards(c, cards)[i])
  {
    if cards != [] {
      ParseCardsWellFormed(c, cards[..|cards| - 1]);
      ParseCardShape(c, cards[|cards| - 1]);
    }
  }

  /** Four parallel lists of the same length whose entries are all well formed. */
  predicate AllWellFormed(quests: seq<string>, opts: seq<seq<string>>, corrs: seq<seq<int>>, packs: seq<seq<Option<string>>>) {
    |opts| == |quests| && |corrs| == |quests| && |packs| == |quests| &&
    forall i :: 0 <= i < |quests| ==> WellFormed(Entry(quests[i], opts[i], corrs[i], packs[i]))
  }

  lemma AllWellFormedUpdate(quests: seq<string>, opts: seq<seq<string>>, corrs: seq<seq<int>>, packs: seq<seq<Option<string>>>,
                            i: nat, a: seq<string>, c: seq<int>)
    requires AllWellFormed(quests, opts, corrs, packs) && i < |quests| && WellFormed(Entry(quests[i], a, c, packs[i]))
    ensures AllWellFormed(quests, opts[i := a], corrs[i := c], packs)
  {
  }

  lemma {:induction false} AllWellFormedAppend(quests: seq<string>, opts: seq<seq<string>>, corrs: seq<seq<int>>, packs: seq<seq<Option<string>>>,
                            e: Entry)
    requires AllWellFormed(quests, opts, corrs, packs) && WellFormed(e)
    ensures AllWellFormed(quests + [e.question], opts + [e.answers], corrs + [e.correct], packs + [e.images])
  {
    var n := |quests|;
    assert (quests + [e.question])[n] == e.question;
  }

  function QuestionsOf(es: seq<Entry>): (r: seq<string>)
    ensures |r| == |es|
  {
    seq(|es|, i requires 0 <= i < |es| => es[i].question)
  }

  function AnswersOf(es: seq<Entry>): (r: seq<seq<string>>)
    ensures |r| == |es|
  {
    seq(|es|, i requires 0 <= i < |es| => es[i].answers)
  }

  function CorrectOf(es: seq<Entry>): (r: seq<seq<int>>)
    ensures |r| == |es|
  {
    seq(|es|, i requires 0 <= i < |es| => es[i].correct)
  }

  function ImagesOf(es: seq<Entry>): (r: seq<seq<Option<string>>>)
    ensures |r| == |es|
  {
    seq(|es|, i requires 0 <= i < |es| => es[i].images)
  }

  lemma ProjectionsSnoc(es: seq<Entry>, e: Entry)
    ensures QuestionsOf(es + [e]) == QuestionsOf(es) + [e.question]
    ensures AnswersOf(es + [e]) == AnswersOf(es) + [e.answers]
    ensures CorrectOf(es + [e]) == CorrectOf(es) + [e.correct]
    ensures ImagesOf(es + [e]) == ImagesOf(es) + [e.images]
  {
  }

  // ---------------------------------------------------------------------------------
  // Shuffling the options of one question

  /** Each option paired with whether its index is listed as correct. */
  function Tagged(answers: seq<string>, correct: seq<int>): (t: seq<(string, bool)>)
    ensures |t| == |answers|
  {
    seq(|answers|, i requires 0 <= i < |answers| => (answers[i], i in correct))
  }

  /** The positions from `i` on whose flag is set, in increasing order. */
  function Flagged(t: seq<(string, bool)>, i: nat): seq<int>
    requires i <= |t|
    decreases |t| - i
  {
    if i == |t| then [] else (if t[i].1 then [i] else []) + Flagged(t, i + 1)
  }

  predicate StrictlyIncreasing(s: seq<int>) {
    forall i, j :: 0 <= i < j < |s| ==> s[i] < s[j]
  }

  lemma {:induction false} FlaggedPositions(t: seq<(string, bool)>, i: nat)
    requires i <= |t|
    ensures StrictlyIncreasing(Flagged(t, i))
    ensures forall x :: x in Flagged(t, i) <==> i <= x < |t| && t[x].1
    decreases |t| - i
  {
    if i < |t| {
      FlaggedPositions(t, i + 1);
      var rest := Flagged(t, i + 1);
      if t[i].1 {
        var all := [i] + rest;
        assert Flagged(t, i) == all;
        forall a, b | 0 <= a < b < |all| ensures all[a] < all[b] {
          assert all[b] == rest[b - 1] && rest[b - 1] in rest;
          if a > 0 {
            assert all[a] == rest[a - 1];
          }
        }
      } else {
        assert Flagged(t, i) == rest;
      }
    }
  }

  /** What `shuffle` leaves in `answers[index]` and `correct[index]` when `random.shuffle`
      reorders the tagged options by `perm`. */
  function Shuffled(answers: seq<string>, correct: seq<int>, perm: seq<int>): (seq<string>, seq<int>)
    requires IsPermutation(perm, |answers|)
  {
    PermutationBounds(perm, |answers|);
    var t := Permute(Tagged(answers, correct), perm);
    (seq(|t|, i requires 0 <= i < |t| => t[i].0), Flagged(t, 0))
  }

  /** Shuffling keeps every (option, is correct) pair, as often as it occurred. */
  lemma {:induction false} ShuffleKeepsTaggedOptions(answers: seq<string>, correct: seq<int>, perm: seq<int>)
    requires IsPermutation(perm, |answers|)
    ensures |Shuffled(answers, correct, perm).0| == |answers|
    ensures multiset(Tagged(Shuffled(answers, correct, perm).0, Shuffled(answers, correct, perm).1))
         == multiset(Tagged(answers, correct))
  {
    PermutationBounds(perm, |answers|);
    var t := Permute(Tagged(answers, correct), perm);
    var (a2, c2) := Shuffled(answers, correct, perm);
    FlaggedPositions(t, 0);
    assert Tagged(a2, c2) == t;
    PermutePreservesMultiset(Tagged(answers, correct), perm);
  }

  /** After shuffling, the correct list names, in increasing order, exactly the positions that
      now hold a formerly correct option, and position k holds the option from `perm[k]`. */
  lemma {:induction false} ShuffleCorrectPositions(answers: seq<string>, correct: seq<int>, perm: seq<int>)
    requires IsPermutation(perm, |answers|)
    ensures var (a2, c2) := Shuffled(answers, correct, perm);
      |a2| == |answers| && StrictlyIncreasing(c2) &&
      (forall x :: x in c2 ==> 0 <= x < |a2|) &&
      forall k :: 0 <= k < |a2| ==>
        0 <= perm[k] < |answers| && a2[k] == answers[perm[k]] && (k in c2 <==> perm[k] in correct)
  {
    PermutationBounds(perm, |answers|);
    FlaggedPositions(Permute(Tagged(answers, correct), perm), 0);
  }

  /** The computation of `shuffle`: tag each option with whether it is correct, reorder the
      tagged list by `perm`, then read the options and the positions of the tagged ones back. */
  method ShuffleOptions(oldAnswers: seq<string>, oldCorrect: seq<int>, perm: seq<int>)
    returns (newAnswers: seq<string>, newCorrect: seq<int>)
    requires IsPermutation(perm, |oldAnswers|)
    ensures (newAnswers, newCorrect) == Shuffled(oldAnswers, oldCorrect, perm)
  {
    var tagged := TagOptions(oldAnswers, oldCorrect);
    PermutationBounds(perm, |oldAnswers|);
    tagged := Permute(tagged, perm);
    newAnswers := seq(|tagged|, i requires 0 <= i < |tagged| => tagged[i].0);
    newCorrect := FlaggedOf(tagged);
  }

  /** The first loop of `shuffle`: each option with whether its index is listed as correct. */
  method TagOptions(answers: seq<string>, correct: seq<int>) returns (tagged: seq<(string, bool)>)
    ensures tagged == Tagged(answers, correct)
  {
    tagged := [];
    for i := 0 to |answers|
      invariant |tagged| == i
      invariant forall k :: 0 <= k < i ==> tagged[k] == (answers[k], k in correct)
    {
      if i in correct {
        tagged := tagged + [(answers[i], true)];
      } else {
        tagged := tagged + [(answers[i], false)];
      }
    }
  }

  /** The last loop of `shuffle`: the positions of the tagged options, in order. */
  method FlaggedOf(tagged: seq<(string, bool)>) returns (positions: seq<int>)
    ensures positions == Flagged(tagged, 0)
  {
    positions := [];
    for i := 0 to |tagged|
      invariant positions + Flagged(tagged, i) == Flagged(tagged, 0)
    {
      if tagged[i].1 {
        assert Flagged(tagged, i) == [i] + Flagged(tagged, i + 1);
        positions := positions + [i];
      }
    }
    assert positions + [] == positions;
  }

  /** Shuffling a well-formed entry's options keeps it well formed. */
  lemma {:induction false} ShuffledWellFormed(q: string, answers: seq<string>, correct: seq<int>, images: seq<Option<string>>, perm: seq<int>)
    requires WellFormed(Entry(q, answers, correct, images)) && IsPermutation(perm, |answers|)
    ensures WellFormed(Entry(q, Shuffled(answers, correct, perm).0, Shuffled(answers, correct, perm).1, images))
  {
    ShuffleCorrectPositions(answers, correct, perm);
    var a2 := Shuffled(answers, correct, perm).0;
    forall j | 0 <= j < |a2| ensures |a2[j]| > 0 {
      assert a2[j] == answers[perm[j]];
    }
  }

  // ---------------------------------------------------------------------------------
  // Scoring

  /** The scoring rule of `updateScore`: the selection is not empty and every selected index is
      listed as correct. Correct options left unselected do not matter. */
  predicate Awards(selection: seq<int>, correct: seq<int>) {
    |selection| > 0 && forall k :: 0 <= k < |selection| ==> selection[k] in correct
  }

  /** Selecting exactly the correct options always scores, whatever their order... */
  lemma {:induction false} ExactSelectionScores(selection: seq<int>, correct: seq<int>)
    requires |correct| > 0
    requires (forall x :: x in selection ==> x in correct) && (forall x :: x in correct ==> x in selection)
    ensures Awards(selection, correct)
  {
    var first := correct[0];
    assert first in correct;
    assert first in selection;
    forall k | 0 <= k < |selection| ensures selection[k] in correct {
      var chosen := selection[k];
      assert chosen in selection;
    }
  }

  /** ...but so does a part of them: with options 0 and 2 correct, selecting 0 alone scores. */
  lemma SubsetSelectionScores(selection: seq<int>, correct: seq<int>)
    requires selection == [0] && correct == [0, 2]
    ensures Awards(selection, correct)
  {
  }

  /** A selection that includes an option not listed as correct never scores. */
  lemma WrongOptionNeverScores(selection: seq<int>, correct: seq<int>, k: nat)
    requires k < |selection| && selection[k] !in correct
    ensures !Awards(selection, correct)
  {
  }

  // ---------------------------------------------------------------------------------
  // Classes

  /** What `getQuestion` returns: "" past the end or before loading, otherwise the
      one-element tuple `(question,)` (the source's return statement ends with a comma). */
  datatype QuestionView = Blank | OneTuple(text: string)

  class AnkiCore {
    const model: string
    var collection: Option<Collection>
    var decksNames: Option<seq<string>>
    var decksWithModel: Option<seq<DeckRecord>>
    var init: bool

    ghost predicate Valid()
      reads this
    {
      (init ==> collection.Some?) &&
      (decksNames.Some? <==> decksWithModel.Some?) &&
      (decksNames.Some? ==> init && decksNames.value == Names(decksWithModel.value) && |decksNames.value| > 0)
    }

    /** `AnkiCore(model=MODEL_NAME)`: the application constructs it with `ModelName`. */
    constructor (model: string)
      ensures Valid()
      ensures this.model == model && collection == None && decksNames == None
      ensures decksWithModel == None && !init
    {
      this.model := model;
      collection := None;
      decksNames := None;
      decksWithModel := None;
      init := false;
    }

    /** `_loadSupportedDecks`: -1 before a successful connection, -2 (changing nothing) when
        no deck has a card of the model, otherwise 0 with the supported decks recorded. */
    method LoadSupportedDecks() returns (status: int)
      requires Valid()
      modifies this
      ensures Valid()
      ensures collection == old(collection) && init == old(init)
      ensures status == -1 <==> !init
      ensures init ==> var supported := SupportedDecks(collection.value, collection.value.decks, model);
        (status == -2 <==> supported == []) && (status == 0 <==> supported != []) &&
        (status == -2 ==> decksNames == old(decksNames) && decksWithModel == old(decksWithModel)) &&
        (status == 0 ==> decksWithModel == Some(supported) && decksNames == Some(Names(supported)))
      ensures !init ==> decksNames == old(decksNames) && decksWithModel == old(decksWithModel)
    {
      if !init {
        return -1;
      }
      var c := collection.value;
      var decks := c.decks;
      var withModel: seq<DeckRecord> := [];
      for i := 0 to |decks|
        invariant withModel == SupportedDecks(c, decks[..i], model)
      {
        var cards := c.findCards(decks[i].name);
        for j := 0 to |cards|
          invariant withModel == SupportedDecks(c, decks[..i], model)
          invariant forall k :: 0 <= k < j ==> cards[k].noteType != model
        {
          if cards[j].noteType == model {
            withModel := withModel + [decks[i]];
            break;
          }
        }
        assert decks[..i + 1][..i] == decks[..i];
      }
      assert decks[..|decks|] == decks;
      if |withModel| == 0 {
        return -2;
      }
      decksWithModel := Some(withModel);
      decksNames := Some(Names(withModel));
      return 0;
    }

    /** `Init`: the status of the connection, replaced by -4 when the collection is open but
        supports no deck. */
    method Init(connection: Connection) returns (status: int)
      requires Valid()
      modifies this
      ensures Valid()
      ensures init == (old(init) || connection.Connected?)
      ensures collection == if connection.Connected? then Some(connection.collection) else old(collection)
      ensures status == if init && SupportedDecks(collection.value, collection.value.decks, model) == []
                        then -4 else ConnectStatus(connection)
      ensures init && SupportedDecks(collection.value, collection.value.decks, model) != [] ==>
        decksWithModel == Some(SupportedDecks(collection.value, collection.value.decks, model)) &&
        decksNames == Some(Names(SupportedDecks(collection.value, collection.value.decks, model)))
      ensures !(init && SupportedDecks(collection.value, collection.value.decks, model) != []) ==>
        decksNames == old(decksNames) && decksWithModel == old(decksWithModel)
    {
      status := ConnectStatus(connection);
      if connection.Connected? {
        collection := Some(connection.collection);
      }
      if status == 0 {
        init := true;
      }
      var loaded := LoadSupportedDecks();
      if loaded == -2 {
        status := -4;
      }
    }

    /** `getDeck`: a fresh, empty session on this collection. */
    method GetDeck(deckName: string) returns (deck: Deck)
      ensures fresh(deck) && deck.Valid() && deck.Empty()
      ensures deck.name == deckName && deck.core == this
    {
      deck := new Deck(deckName, this);
    }
  }

  class Deck {
    const name: string
    const core: AnkiCore
    var cards: seq<Card>
    var questions: seq<string>
    var answers: seq<seq<string>>
    var correct: seq<seq<int>>
    var images: seq<seq<Option<string>>>
    var index: int
    var score: int
    var wrongQuestions: seq<string>
    var errors: seq<string>
    var questionsNum: int
    var loaded: bool

    /** The four entry lists move in lockstep and hold only well-formed entries. */
    ghost predicate Lockstep()
      reads this
    {
      AllWellFormed(questions, answers, correct, images)
    }

    /** The session invariant: the count is the list length, a deck is loaded exactly when it
        has a question, and the position never passes the last question. */
    ghost predicate Valid()
      reads this
    {
      Lockstep() && questionsNum == |questions| &&
      (loaded <==> questionsNum > 0) &&
      0 <= index && (index == 0 || index < questionsNum) &&
      0 <= score
    }

    /** The state of a fresh session. */
    ghost predicate Empty()
      reads this
    {
      cards == [] && questions == [] && answers == [] && correct == [] && images == [] &&
      index == 0 && score == 0 && wrongQuestions == [] && errors == [] &&
      questionsNum == 0 && !loaded
    }

    constructor (name: string, core: AnkiCore)
      ensures Valid() && Empty()
      ensures this.name == name && this.core == core
    {
      this.name := name;
      this.core := core;
      cards := [];
      questions := [];
      answers := [];
      correct := [];
      images := [];
      index := 0;
      score := 0;
      wrongQuestions := [];
      errors := [];
      questionsNum := 0;
      loaded := false;
    }

    /** `loadCard`. */
    method LoadCard() returns (status: int)
      requires Valid()
      requires core.collection.Some? && core.decksNames.Some?
      modifies this
      ensures Valid()
      ensures status == -1 <==> name !in core.decksNames.value
      ensures status == -1 ==> cards == old(cards)
      ensures status != -1 ==> cards == old(cards) + ModelCards(core.collection.value.findCards(name), core.model)
      ensures status == -1 || cards == [] ==>
        questions == old(questions) && answers == old(answers) && correct == old(correct) && images == old(images)
      ensures status != -1 && cards != [] ==>
        var added := ParseCards(core.collection.value, cards);
        questions == old(questions) + QuestionsOf(added) && answers == old(answers) + AnswersOf(added) &&
        correct == old(correct) + CorrectOf(added) && images == old(images) + ImagesOf(added)
      ensures status == 0 <==> status != -1 && cards != [] && questions != []
      ensures status == -2 <==> status != -1 && status != 0
      ensures loaded == (old(loaded) || status == 0)
      ensures index == old(index) && score == old(score) && wrongQuestions == old(wrongQuestions)
      ensures errors == old(errors)
    {
      if name !in core.decksNames.value {
        return -1;
      }
      var found := core.collection.value.findCards(name);
      for i := 0 to |found|
        invariant cards == old(cards) + ModelCards(found[..i], core.model)
        invariant questions == old(questions) && answers == old(answers)
        invariant correct == old(correct) && images == old(images)
        invariant questionsNum == old(questionsNum) && loaded == old(loaded)
        invariant index == old(index) && score == old(score)
        invariant wrongQuestions == old(wrongQuestions) && errors == old(errors)
      {
        assert found[..i + 1][..i] == found[..i];
        if found[i].noteType == core.model {
          cards := cards + [found[i]];
        }
      }
      assert found[..|found|] == found;
      if |cards| == 0 {
        return -2;
      }
      var parsed := LoadQuestions();
      if parsed == -1 {
        return -2;
      }
      loaded := true;
      return 0;
    }

    /** `_loadQuestions`: one entry per kept card appended to each of the four lists. The
        skipped questions are gathered in a local list that is then dropped; `errors` stays. */
    method LoadQuestions() returns (status: int)
      requires Lockstep() && core.collection.Some?
      modifies this
      ensures Lockstep()
      ensures var added := ParseCards(core.collection.value, cards);
        questions == old(questions) + QuestionsOf(added) && answers == old(answers) + AnswersOf(added) &&
        correct == old(correct) + CorrectOf(added) && images == old(images) + ImagesOf(added)
      ensures questionsNum == |questions|
      ensures status == (if |questions| == 0 then -1 else 0)
      ensures cards == old(cards) && index == old(index) && score == old(score)
      ensures wrongQuestions == old(wrongQuestions) && errors == old(errors) && loaded == old(loaded)
    {
      var c := core.collection.value;
      var skipped: seq<string> := [];
      ghost var added: seq<Entry> := [];
      for i := 0 to |cards|
        invariant cards == old(cards)
        invariant Lockstep()
        invariant added == ParseCards(c, cards[..i])
        invariant questions == old(questions) + QuestionsOf(added) && answers == old(answers) + AnswersOf(added)
        invariant correct == old(correct) + CorrectOf(added) && images == old(images) + ImagesOf(added)
        invariant index == old(index) && score == old(score)
        invariant wrongQuestions == old(wrongQuestions) && errors == old(errors) && loaded == old(loaded)
      {
        var entry := ReadCard(cards[i]);
        ParseCardsSnoc(c, cards, i, entry);
        if entry.None? {
          var question := FindImages(c, cards[i].fields[0]).0;
          skipped := skipped + [if |question| != 0 then question else "Unknown, cannot show question"];
          continue;
        }
        ParsedWellFormed(c, cards[i], entry.value);
        Keep(old(questions), old(answers), old(correct), old(images), added, entry.value);
        added := added + [entry.value];
      }
      assert cards[..|cards|] == cards;
      questionsNum := |questions|;
      if |questions| == 0 {
        return -1;
      }
      return 0;
    }

    /** Appending a kept card's entry extends the lists by one more parsed entry. */
    method Keep(ghost q0: seq<string>, ghost a0: seq<seq<string>>, ghost c0: seq<seq<int>>,
                ghost i0: seq<seq<Option<string>>>, ghost added: seq<Entry>, e: Entry)
      requires Lockstep() && WellFormed(e)
      requires questions == q0 + QuestionsOf(added) && answers == a0 + AnswersOf(added)
      requires correct == c0 + CorrectOf(added) && images == i0 + ImagesOf(added)
      modifies this
      ensures Lockstep()
      ensures questions == q0 + QuestionsOf(added + [e]) && answers == a0 + AnswersOf(added + [e])
      ensures correct == c0 + CorrectOf(added + [e]) && images == i0 + ImagesOf(added + [e])
      ensures cards == old(cards) && index == old(index) && score == old(score) && questionsNum == old(questionsNum)
      ensures wrongQuestions == old(wrongQuestions) && errors == old(errors) && loaded == old(loaded)
    {
      ProjectionsSnoc(added, e);
      Append(e);
    }

    /** The four appends of `_loadQuestions` for one kept card. */
    method Append(e: Entry)
      requires Lockstep() && WellFormed(e)
      modifies this
      ensures Lockstep()
      ensures questions == old(questions) + [e.question] && answers == old(answers) + [e.answers]
      ensures correct == old(correct) + [e.correct] && images == old(images) + [e.images]
      ensures cards == old(cards) && index == old(index) && score == old(score) && questionsNum == old(questionsNum)
      ensures wrongQuestions == old(wrongQuestions) && errors == old(errors) && loaded == old(loaded)
    {
      AllWellFormedAppend(questions, answers, correct, images, e);
      correct := correct + [e.correct];
      questions := questions + [e.question];
      answers := answers + [e.answers];
      images := images + [e.images];
    }

    /** The body of `_loadQuestions`' loop for one card: the entry it appends, or None when
        it skips the card. */
    method ReadCard(card: Card) returns (entry: Option<Entry>)
      requires core.collection.Some?
      ensures entry == ParseCard(core.collection.value, card)
    {
      var c := core.collection.value;
      var fields := card.fields;
      var (question, refs) := FindImages(c, fields[0]);
      var options := Options(fields);
      var correctField := fields[|fields| - 1];
      var pack := GetImage64(refs);
      if |correctField| == 0 || |options| == 0 || |question| == 0 {
        return None;
      }
      var indices := CorrectToIndex(correctField);
      var cleaned := new string[|options|](k requires 0 <= k < |options| => options[k]);
      ClearStrings(cleaned);
      assert cleaned[..] == ClearAll(options);
      return Some(Entry(ClearString(question), cleaned[..], indices, pack));
    }

    /** `_getImage64`: the media payloads found for the references, or [None]. */
    method GetImage64(refs: seq<string>) returns (images64: seq<Option<string>>)
      requires core.collection.Some?
      ensures images64 == ImagePack(core.collection.value, refs)
    {
      var media := core.collection.value.mediaFiles;
      var srcs: seq<string> := [];
      for i := 0 to |refs|
        invariant srcs == FoundMedia(media, refs[..i])
      {
        assert refs[..i + 1][..i] == refs[..i];
        srcs := srcs + media(refs[i]);
      }
      assert refs[..|refs|] == refs;
      images64 := [];
      for i := 0 to |srcs|
        invariant |images64| == i && forall k :: 0 <= k < i ==> images64[k] == Some(srcs[k])
      {
        images64 := images64 + [Some(srcs[i])];
      }
      if |images64| == 0 {
        images64 := [None];
      }
    }

    /** `shuffle`: reorders the current question's options by `perm`, the outcome of
        `random.shuffle`, and recomputes its correct list; nothing happens before loading. */
    method Shuffle(perm: seq<int>)
      requires Valid()
      requires loaded ==> IsPermutation(perm, |answers[index]|)
      modifies this
      ensures questions == old(questions) && images == old(images) && cards == old(cards)
      ensures index == old(index) && score == old(score) && wrongQuestions == old(wrongQuestions)
      ensures errors == old(errors) && questionsNum == old(questionsNum) && loaded == old(loaded)
      ensures Valid()
      ensures !old(loaded) ==> answers == old(answers) && correct == old(correct)
      ensures old(loaded) ==>
        var (a2, c2) := Shuffled(old(answers[index]), old(correct[index]), perm);
        answers == old(answers)[old(index) := a2] && correct == old(correct)[old(index) := c2]
      ensures old(loaded) ==>
        multiset(Tagged(answers[index], correct[index])) == multiset(Tagged(old(answers[index]), old(correct[index])))
    {
      if !loaded {
        return;
      }
      var oldAnswers := answers[index];
      var oldCorrect := correct[index];
      var newAnswers, newCorrect := ShuffleOptions(oldAnswers, oldCorrect, perm);
      ShuffleKeepsTaggedOptions(oldAnswers, oldCorrect, perm);
      assert WellFormed(Entry(questions[index], oldAnswers, oldCorrect, images[index]));
      ShuffledWellFormed(questions[index], oldAnswers, oldCorrect, images[index], perm);
      AllWellFormedUpdate(questions, answers, correct, images, index, newAnswers, newCorrect);
      answers := answers[index := newAnswers];
      correct := correct[index := newCorrect];
    }

    /** `nextQuestion`: -1 at the last question (or before loading) with the position kept,
        otherwise 0 with the position one further. Its -2 branch cannot be taken: a deck that
        is not loaded has no questions, so the first test already answers -1. */
    method NextQuestion() returns (status: int)
      requires Valid()
      modifies this
      ensures Valid()
      ensures status == (if old(index) >= old(questionsNum) - 1 then -1 else 0)
      ensures index == if status == 0 then old(index) + 1 else old(index)
      ensures loaded ==> index < questionsNum
      ensures questions == old(questions) && answers == old(answers) && correct == old(correct)
      ensures images == old(images) && cards == old(cards) && score == old(score)
      ensures wrongQuestions == old(wrongQuestions) && errors == old(errors)
      ensures questionsNum == old(questionsNum) && loaded == old(loaded)
    {
      if index >= questionsNum - 1 {
        return -1;
      }
      if !loaded {
        assert false;
        return -2;
      }
      index := index + 1;
      return 0;
    }

    /** `updateScore`: -1 before loading, changing nothing; otherwise 0, with a point when the
        selection scores and the question appended to the wrong list when it does not. Its -2
        branch cannot be taken: a loaded deck never stands past its last question. */
    method UpdateScore(selection: seq<int>) returns (status: int)
      requires Valid()
      modifies this
      ensures questions == old(questions) && answers == old(answers) && correct == old(correct)
      ensures images == old(images) && cards == old(cards) && index == old(index)
      ensures errors == old(errors) && questionsNum == old(questionsNum) && loaded == old(loaded)
      ensures Valid()
      ensures status == (if old(loaded) then 0 else -1)
      ensures status == -1 ==> score == old(score) && wrongQuestions == old(wrongQuestions)
      ensures status == 0 && Awards(selection, correct[index]) ==>
        score == old(score) + 1 && wrongQuestions == old(wrongQuestions)
      ensures status == 0 && !Awards(selection, correct[index]) ==>
        score == old(score) && wrongQuestions == old(wrongQuestions) + [questions[index]]
    {
      if !loaded {
        return -1;
      }
      if index >= questionsNum {
        assert false;
        return -2;
      }
      var point := false;
      for i := 0 to |selection|
        invariant forall k :: 0 <= k < i ==> selection[k] in correct[index]
        invariant point == (i > 0)
      {
        if selection[i] !in correct[index] {
          point := false;
          break;
        }
        if selection[i] in correct[index] {
          point := true;
        }
      }
      if point {
        score := score + 1;
      } else {
        wrongQuestions := wrongQuestions + [questions[index]];
      }
      return 0;
    }

    /** `getQuestion`: blank exactly when nothing is loaded, otherwise the current question. */
    function GetQuestion(): (r: QuestionView)
      reads this
      requires Valid()
      ensures r.Blank? <==> !loaded
      ensures r.OneTuple? ==> r.text == questions[index] && |r.text| > 0
    {
      if index >= questionsNum || !loaded then Blank
      else OneTuple(questions[index])
    }

    /** `getAnswers`: empty exactly when nothing is loaded, otherwise the current options. */
    function GetAnswers(): (r: seq<string>)
      reads this
      requires Valid()
      ensures |r| > 0 <==> loaded
      ensures loaded ==> r == answers[index]
    {
      if index >= questionsNum || !loaded then []
      else answers[index]
    }

    /** `getImages`: empty exactly when nothing is loaded, otherwise the current image pack. */
    function GetImages(): (r: seq<Option<string>>)
      reads this
      requires Valid()
      ensures |r| > 0 <==> loaded
      ensures loaded ==> r == images[index]
    {
      if index >= questionsNum || !loaded then []
      else images[index]
    }
  }
}
