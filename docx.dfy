/** docxsave/core.py: writing a deck's questions to a Word document. The document is modelled
    as the sequence of blocks appended to it; rendering, fonts and the file format are not. */
module Docx {
  import opened Wrappers
  import opened PyStrings

  /** One block appended to the document. `ParaCorrect` is the bold, yellow-highlighted
      paragraph of `add_paragraph_correct`; a picture is kept as its base64 text. */
  datatype Block =
    | Heading(text: string, level: int)
    | Para(text: string)
    | ParaCorrect(text: string)
    | Picture(payload: string)
    | Table(rows: int, cols: int)

  // ---------------------------------------------------------------------------------
  // What `export` writes

  /** The pictures of one image pack: its entries that are neither None nor "". */
  function PicturesOf(pack: seq<Option<string>>): (pics: seq<string>)
    ensures |pics| <= |pack|
    ensures forall k :: 0 <= k < |pics| ==> pics[k] != "" && Some(pics[k]) in pack
  {
    if pack == [] then []
    else
      var front := PicturesOf(pack[..|pack| - 1]);
      var last := pack[|pack| - 1];
      assert forall x :: x in pack[..|pack| - 1] ==> x in pack;
      front + (if last.Some? && last.value != "" then [last.value] else [])
  }

  /** Exactly the entries that are neither None nor "" are kept. */
  lemma {:induction false} PicturesOfMembers(pack: seq<Option<string>>, x: string)
    ensures x in PicturesOf(pack) <==> x != "" && Some(x) in pack
  {
    if pack != [] {
      var front := pack[..|pack| - 1];
      assert pack == front + [pack[|pack| - 1]];
      PicturesOfMembers(front, x);
    }
  }

  /** The pictures of two packs in a row are those of the first, then those of the second,
      so pack order is kept. */
  lemma {:induction false} PicturesOfAppend(a: seq<Option<string>>, b: seq<Option<string>>)
    ensures PicturesOf(a + b) == PicturesOf(a) + PicturesOf(b)
    decreases |b|
  {
    if b == [] {
      assert a + b == a;
    } else {
      var front := b[..|b| - 1];
      assert (a + b)[..|a + b| - 1] == a + front;
      PicturesOfAppend(a, front);
    }
  }

  /** An element of the `images` argument: None, the empty string, or a list of images. */
  datatype ImagePack = NoPack | EmptyPack | Pack(images: seq<Option<string>>)

  /** `imgObj` for the first `n` packs: the pictures of each list, with None and "" packs
      dropped altogether. */
  function PackObjects(packs: seq<ImagePack>, n: nat): (objs: seq<seq<string>>)
    requires n <= |packs|
    ensures |objs| <= n
  {
    if n == 0 then []
    else
      PackObjects(packs, n - 1) +
        match packs[n - 1] case Pack(images) => [PicturesOf(images)] case _ => []
  }

  /** `imgObj`: nothing at all when `images` is None. */
  function ImageObjects(images: Option<seq<ImagePack>>): seq<seq<string>> {
    match images
    case None => []
    case Some(packs) => PackObjects(packs, |packs|)
  }

  /** When every pack is a list, `imgObj[i]` holds the pictures of question i's pack; a None or
      "" pack shifts every later pack one question earlier. */
  lemma {:induction false} PackObjectsAligned(packs: seq<ImagePack>, n: nat)
    requires n <= |packs| && forall i :: 0 <= i < n ==> packs[i].Pack?
    ensures |PackObjects(packs, n)| == n
    ensures forall i :: 0 <= i < n ==> PackObjects(packs, n)[i] == PicturesOf(packs[i].images)
  {
    if n > 0 {
      PackObjectsAligned(packs, n - 1);
    }
  }

  /** A dropped pack makes `imgObj` shorter than the pack list. */
  lemma {:induction false} PackObjectsDropped(packs: seq<ImagePack>, n: nat, k: nat)
    requires k < n <= |packs| && !packs[k].Pack?
    ensures |PackObjects(packs, n)| < n
  {
    if k < n - 1 {
      PackObjectsDropped(packs, n - 1, k);
    }
  }

  function PictureBlocks(pics: seq<string>): (bs: seq<Block>)
    ensures |bs| == |pics|
  {
    seq(|pics|, i requires 0 <= i < |pics| => Picture(pics[i]))
  }

  /** The paragraphs for the first `n` options: a highlighted copy before each correct one. */
  function AnswerBlocks(options: seq<string>, correct: seq<int>, n: nat): seq<Block>
    requires n <= |options|
  {
    if n == 0 then []
    else
      AnswerBlocks(options, correct, n - 1) + OptionBlocks(options[n - 1], n - 1 in correct)
  }

  /** Everything one question contributes. */
  function QuestionBlocks(question: string, pics: seq<string>, options: seq<string>, correct: seq<int>): seq<Block> {
    [Heading(question, 1)] + PictureBlocks(pics) + AnswerBlocks(options, correct, |options|)
  }

  /** The lists `export` reads for its first `n` questions are long enough. */
  predicate Covers(questions: seq<string>, answers: seq<seq<string>>, correct: seq<seq<int>>, pictures: seq<seq<string>>, n: nat) {
    n <= |questions| && n <= |answers| && n <= |correct| && n <= |pictures|
  }

  /** The blocks `export` appends for its first `n` questions. */
  function ExportBlocks(questions: seq<string>, answers: seq<seq<string>>, correct: seq<seq<int>>,
                        pictures: seq<seq<string>>, n: nat): seq<Block>
    requires Covers(questions, answers, correct, pictures, n)
  {
    if n == 0 then []
    else
      ExportBlocks(questions, answers, correct, pictures, n - 1) +
        QuestionBlocks(questions[n - 1], pictures[n - 1], answers[n - 1], correct[n - 1])
  }

  /** The deck name with ' ', '/' and '\\' each replaced by '_' (computed by `export`, unused). */
  function SafeName(name: string): (r: string)
    ensures |r| == |name|
    ensures forall i :: 0 <= i < |name| ==> r[i] == if name[i] in " /\\" then '_' else name[i]
  {
    var a := Replace(name, " ", "_");
    var b := Replace(a, "/", "_");
    var c := Replace(b, "\\", "_");
    ReplaceChar(name, ' ', '_');
    ReplaceChar(a, '/', '_');
    ReplaceChar(b, '\\', '_');
    c
  }

  // ---------------------------------------------------------------------------------
  // Reading a document back

  /** The texts of the headings, in order. */
  function Headings(doc: seq<Block>): seq<string> {
    if doc == [] then []
    else Headings(doc[..|doc| - 1]) + match doc[|doc| - 1] case Heading(t, _) => [t] case _ => []
  }

  /** The texts of the plain paragraphs, in order. */
  function Paragraphs(doc: seq<Block>): seq<string> {
    if doc == [] then []
    else Paragraphs(doc[..|doc| - 1]) + match doc[|doc| - 1] case Para(t) => [t] case _ => []
  }

  /** The texts of the highlighted paragraphs, in order. */
  function Highlighted(doc: seq<Block>): seq<string> {
    if doc == [] then []
    else Highlighted(doc[..|doc| - 1]) + match doc[|doc| - 1] case ParaCorrect(t) => [t] case _ => []
  }

  /** The options at the positions listed as correct among the first `n`, in option order. */
  function CorrectOptions(options: seq<string>, correct: seq<int>, n: nat): seq<string>
    requires n <= |options|
  {
    if n == 0 then [] else CorrectOptions(options, correct, n - 1) + if n - 1 in correct then [options[n - 1]] else []
  }

  /** Every option concatenated, question after question. */
  function Flatten(answers: seq<seq<string>>): seq<string> {
    if answers == [] then [] else Flatten(answers[..|answers| - 1]) + answers[|answers| - 1]
  }

  lemma {:induction false} HeadingsAppend(a: seq<Block>, b: seq<Block>)
    ensures Headings(a + b) == Headings(a) + Headings(b)
    decreases |b|
  {
    if b == [] {
      assert a + b == a;
    } else {
      var front := b[..|b| - 1];
      assert (a + b)[..|a + b| - 1] == a + front;
      HeadingsAppend(a, front);
    }
  }

  lemma {:induction false} ParagraphsAppend(a: seq<Block>, b: seq<Block>)
    ensures Paragraphs(a + b) == Paragraphs(a) + Paragraphs(b)
    decreases |b|
  {
    if b == [] {
      assert a + b == a;
    } else {
      var front := b[..|b| - 1];
      assert (a + b)[..|a + b| - 1] == a + front;
      ParagraphsAppend(a, front);
    }
  }

  lemma {:induction false} HighlightedAppend(a: seq<Block>, b: seq<Block>)
    ensures Highlighted(a + b) == Highlighted(a) + Highlighted(b)
    decreases |b|
  {
    if b == [] {
      assert a + b == a;
    } else {
      var front := b[..|b| - 1];
      assert (a + b)[..|a + b| - 1] == a + front;
      HighlightedAppend(a, front);
    }
  }

  lemma {:induction false} PictureBlocksText(pics: seq<string>)
    ensures Headings(PictureBlocks(pics)) == [] && Paragraphs(PictureBlocks(pics)) == []
    ensures Highlighted(PictureBlocks(pics)) == []
  {
    if pics != [] {
      var front := pics[..|pics| - 1];
      assert PictureBlocks(pics)[..|pics| - 1] == PictureBlocks(front);
      PictureBlocksText(front);
    }
  }

  /** The blocks for one option, a highlighted copy first when it is correct. */
  function OptionBlocks(option: string, isCorrect: bool): seq<Block> {
    (if isCorrect then [ParaCorrect(option)] else []) + [Para(option)]
  }

  lemma {:induction false} OptionBlocksText(option: string, isCorrect: bool)
    ensures Headings(OptionBlocks(option, isCorrect)) == []
    ensures Paragraphs(OptionBlocks(option, isCorrect)) == [option]
    ensures Highlighted(OptionBlocks(option, isCorrect)) == if isCorrect then [option] else []
  {
    var bs := OptionBlocks(option, isCorrect);
    if isCorrect {
      var one := [ParaCorrect(option)];
      assert one[..0] == [];
      assert one[..|one| - 1] == [];
      assert Headings(one) == [];
      assert Paragraphs(one) == [];
      assert Highlighted(one) == [option];
      assert bs[..1] == one;
    } else {
      assert bs[..0] == [];
    }
  }

  /** The option paragraphs of a question hold no heading. */
  lemma {:induction false} AnswerBlocksHeadings(options: seq<string>, correct: seq<int>, n: nat)
    requires n <= |options|
    ensures Headings(AnswerBlocks(options, correct, n)) == []
  {
    if n > 0 {
      AnswerBlocksHeadings(options, correct, n - 1);
      HeadingsAppend(AnswerBlocks(options, correct, n - 1), OptionBlocks(options[n - 1], n - 1 in correct));
      OptionBlocksText(options[n - 1], n - 1 in correct);
    }
  }

  /** The plain paragraphs of a question are its options, in order. */
  lemma {:induction false} AnswerBlocksParagraphs(options: seq<string>, correct: seq<int>, n: nat)
    requires n <= |options|
    ensures Paragraphs(AnswerBlocks(options, correct, n)) == options[..n]
  {
    if n > 0 {
      var prev := AnswerBlocks(options, correct, n - 1);
      var tail := OptionBlocks(options[n - 1], n - 1 in correct);
      assert AnswerBlocks(options, correct, n) == prev + tail;
      AnswerBlocksParagraphs(options, correct, n - 1);
      OptionBlocksText(options[n - 1], n - 1 in correct);
      ParagraphsSnoc(prev, tail, options[..n - 1], options[n - 1]);
      TakeSnoc(options, n);
    }
  }

  lemma TakeSnoc<T>(s: seq<T>, n: nat)
    requires 0 < n <= |s|
    ensures s[..n - 1] + [s[n - 1]] == s[..n]
  {
  }

  lemma {:induction false} ParagraphsSnoc(prev: seq<Block>, tail: seq<Block>, texts: seq<string>, t: string)
    requires Paragraphs(prev) == texts && Paragraphs(tail) == [t]
    ensures Paragraphs(prev + tail) == texts + [t]
  {
    ParagraphsAppend(prev, tail);
  }

  /** The highlighted paragraphs of a question are its correct options, in order. */
  lemma {:induction false} AnswerBlocksHighlighted(options: seq<string>, correct: seq<int>, n: nat)
    requires n <= |options|
    ensures Highlighted(AnswerBlocks(options, correct, n)) == CorrectOptions(options, correct, n)
  {
    if n > 0 {
      AnswerBlocksHighlighted(options, correct, n - 1);
      HighlightedAppend(AnswerBlocks(options, correct, n - 1), OptionBlocks(options[n - 1], n - 1 in correct));
      OptionBlocksText(options[n - 1], n - 1 in correct);
    }
  }

  /** A highlighted paragraph is always directly followed by a plain one with the same text,
      and only options listed as correct are highlighted. */
  lemma {:induction false} HighlightFollowedByPlain(options: seq<string>, correct: seq<int>, n: nat, k: nat)
    requires n <= |options| && k < |AnswerBlocks(options, correct, n)|
    requires AnswerBlocks(options, correct, n)[k].ParaCorrect?
    ensures k + 1 < |AnswerBlocks(options, correct, n)|
    ensures AnswerBlocks(options, correct, n)[k + 1] == Para(AnswerBlocks(options, correct, n)[k].text)
    ensures exists j :: 0 <= j < n && j in correct && AnswerBlocks(options, correct, n)[k].text == options[j]
  {
    var prev := AnswerBlocks(options, correct, n - 1);
    var tail := OptionBlocks(options[n - 1], n - 1 in correct);
    assert AnswerBlocks(options, correct, n) == prev + tail;
    if k < |prev| {
      HighlightFollowedByPlain(options, correct, n - 1, k);
      var j :| 0 <= j < n - 1 && j in correct && prev[k].text == options[j];
    } else {
      assert n - 1 in correct && k == |prev|;
    }
  }

  /** A question's blocks start with its heading, then its pictures, then its paragraphs. */
  lemma {:induction false} QuestionBlocksText(question: string, pics: seq<string>, options: seq<string>, correct: seq<int>)
    ensures Headings(QuestionBlocks(question, pics, options, correct)) == [question]
    ensures Paragraphs(QuestionBlocks(question, pics, options, correct)) == options
    ensures Highlighted(QuestionBlocks(question, pics, options, correct)) == CorrectOptions(options, correct, |options|)
  {
    var head := [Heading(question, 1)] + PictureBlocks(pics);
    PictureBlocksText(pics);
    AnswerBlocksHeadings(options, correct, |options|);
    AnswerBlocksParagraphs(options, correct, |options|);
    AnswerBlocksHighlighted(options, correct, |options|);
    HeadingsAppend([Heading(question, 1)], PictureBlocks(pics));
    ParagraphsAppend([Heading(question, 1)], PictureBlocks(pics));
    HighlightedAppend([Heading(question, 1)], PictureBlocks(pics));
    HeadingsAppend(head, AnswerBlocks(options, correct, |options|));
    ParagraphsAppend(head, AnswerBlocks(options, correct, |options|));
    HighlightedAppend(head, AnswerBlocks(options, correct, |options|));
    assert [Heading(question, 1)][..0] == [];
    assert options[..|options|] == options;
  }

  /** The headings of an export are its questions, in order. */
  lemma {:induction false} ExportHeadings(questions: seq<string>, answers: seq<seq<string>>, correct: seq<seq<int>>,
                                          pictures: seq<seq<string>>, n: nat)
    requires Covers(questions, answers, correct, pictures, n)
    ensures Headings(ExportBlocks(questions, answers, correct, pictures, n)) == questions[..n]
  {
    if n > 0 {
      ExportHeadings(questions, answers, correct, pictures, n - 1);
      var block := QuestionBlocks(questions[n - 1], pictures[n - 1], answers[n - 1], correct[n - 1]);
      HeadingsAppend(ExportBlocks(questions, answers, correct, pictures, n - 1), block);
      QuestionBlocksText(questions[n - 1], pictures[n - 1], answers[n - 1], correct[n - 1]);
      assert questions[..n] == questions[..n - 1] + [questions[n - 1]];
    }
  }

  /** The plain paragraphs of an export are all the options, question after question. */
  lemma {:induction false} ExportParagraphs(questions: seq<string>, answers: seq<seq<string>>, correct: seq<seq<int>>,
                                            pictures: seq<seq<string>>, n: nat)
    requires Covers(questions, answers, correct, pictures, n)
    ensures Paragraphs(ExportBlocks(questions, answers, correct, pictures, n)) == Flatten(answers[..n])
  {
    if n > 0 {
      ExportParagraphs(questions, answers, correct, pictures, n - 1);
      var block := QuestionBlocks(questions[n - 1], pictures[n - 1], answers[n - 1], correct[n - 1]);
      ParagraphsAppend(ExportBlocks(questions, answers, correct, pictures, n - 1), block);
      QuestionBlocksText(questions[n - 1], pictures[n - 1], answers[n - 1], correct[n - 1]);
      assert answers[..n][..n - 1] == answers[..n - 1];
    }
  }

  /** The blocks of the first i questions are a prefix of those of the first n. */
  lemma {:induction false} ExportBlocksPrefix(questions: seq<string>, answers: seq<seq<string>>, correct: seq<seq<int>>,
                                              pictures: seq<seq<string>>, i: nat, n: nat)
    requires i <= n && Covers(questions, answers, correct, pictures, n)
    ensures |ExportBlocks(questions, answers, correct, pictures, i)| <= |ExportBlocks(questions, answers, correct, pictures, n)|
    ensures ExportBlocks(questions, answers, correct, pictures, n)[..|ExportBlocks(questions, answers, correct, pictures, i)|]
         == ExportBlocks(questions, answers, correct, pictures, i)
    decreases n - i
  {
    if i < n {
      ExportBlocksPrefix(questions, answers, correct, pictures, i, n - 1);
      var before := ExportBlocks(questions, answers, correct, pictures, n - 1);
      var prefix := ExportBlocks(questions, answers, correct, pictures, i);
      var doc := ExportBlocks(questions, answers, correct, pictures, n);
      assert doc == before + QuestionBlocks(questions[n - 1], pictures[n - 1], answers[n - 1], correct[n - 1]);
      assert doc[..|prefix|] == before[..|prefix|];
    }
  }

  /** Question i's blocks in the document for n questions: after those of the questions before
      it come its heading, then its pictures in order, then its option paragraphs, and they
      end where the blocks of the first i + 1 questions end. */
  lemma {:induction false} ExportBlocksLayout(questions: seq<string>, answers: seq<seq<string>>, correct: seq<seq<int>>,
                                              pictures: seq<seq<string>>, i: nat, n: nat)
    requires i < n && Covers(questions, answers, correct, pictures, n)
    ensures var doc := ExportBlocks(questions, answers, correct, pictures, n);
      var start := |ExportBlocks(questions, answers, correct, pictures, i)|;
      var options := AnswerBlocks(answers[i], correct[i], |answers[i]|);
      var mid := start + 1 + |pictures[i]|;
      var end := mid + |options|;
      end == |ExportBlocks(questions, answers, correct, pictures, i + 1)| && end <= |doc| &&
      doc[..start] == ExportBlocks(questions, answers, correct, pictures, i) &&
      doc[start] == Heading(questions[i], 1) &&
      doc[start + 1..mid] == PictureBlocks(pictures[i]) &&
      doc[mid..end] == options
  {
    ExportBlocksPrefix(questions, answers, correct, pictures, i, n);
    ExportBlocksPrefix(questions, answers, correct, pictures, i + 1, n);
    var doc := ExportBlocks(questions, answers, correct, pictures, n);
    var prefix := ExportBlocks(questions, answers, correct, pictures, i);
    var block := QuestionBlocks(questions[i], pictures[i], answers[i], correct[i]);
    var upTo := ExportBlocks(questions, answers, correct, pictures, i + 1);
    assert upTo == prefix + block;
    assert doc[..|upTo|] == upTo;
    QuestionSlices(doc, prefix, block, questions[i], pictures[i], AnswerBlocks(answers[i], correct[i], |answers[i]|));
  }

  lemma QuestionSlices(doc: seq<Block>, prefix: seq<Block>, block: seq<Block>, question: string,
                       pics: seq<string>, options: seq<Block>)
    requires block == [Heading(question, 1)] + PictureBlocks(pics) + options
    requires |prefix + block| <= |doc| && doc[..|prefix + block|] == prefix + block
    ensures doc[..|prefix|] == prefix
    ensures doc[|prefix|] == Heading(question, 1)
    ensures doc[|prefix| + 1..|prefix| + 1 + |pics|] == PictureBlocks(pics)
    ensures doc[|prefix| + 1 + |pics|..|prefix| + 1 + |pics| + |options|] == options
  {
    var up := prefix + block;
    assert doc[..|prefix|] == up[..|prefix|];
    assert doc[|prefix|] == up[|prefix|];
    assert doc[|prefix| + 1..|prefix| + 1 + |pics|] == up[|prefix| + 1..|prefix| + 1 + |pics|];
    assert doc[|prefix| + 1 + |pics|..|up|] == up[|prefix| + 1 + |pics|..];
  }

  // ---------------------------------------------------------------------------------
  // Classes

  class DocxSave {
    const path: string
    var doc: seq<Block>

    constructor (path: string)
      ensures this.path == path && doc == []
    {
      this.path := path;
      doc := [];
    }

    method AddParagraph(text: string)
      modifies this
      ensures doc == old(doc) + [Para(text)]
    {
      doc := doc + [Para(text)];
    }

    method AddParagraphCorrect(text: string)
      modifies this
      ensures doc == old(doc) + [ParaCorrect(text)]
    {
      doc := doc + [ParaCorrect(text)];
    }

    method AddHeading(text: string, level: int)
      modifies this
      ensures doc == old(doc) + [Heading(text, level)]
    {
      doc := doc + [Heading(text, level)];
    }

    method AddPicture(payload: string)
      modifies this
      ensures doc == old(doc) + [Picture(payload)]
    {
      doc := doc + [Picture(payload)];
    }

    method AddTable(rows: int, cols: int)
      modifies this
      ensures doc == old(doc) + [Table(rows, cols)]
    {
      doc := doc + [Table(rows, cols)];
    }

    /** `save`: Python's None when the file was written, False when writing raised.
        `written` stands for the outcome of `doc.save(path)`. */
    method Save(written: bool) returns (r: Option<bool>)
      ensures r == None <==> written
      ensures r != None ==> r == Some(false)
    {
      if !written {
        return Some(false);
      }
      return None;
    }
  }

  class ExportAnki {
    const path: string
    const ds: DocxSave

    constructor (path: string)
      ensures this.path == path && fresh(ds) && ds.path == path && ds.doc == []
    {
      this.path := path;
      ds := new DocxSave(path);
    }

    /** The `imgObj` loop of `export`: each pack's pictures, in order. */
    method ImageObjectsOf(images: Option<seq<ImagePack>>) returns (imgObj: seq<seq<string>>)
      ensures imgObj == ImageObjects(images)
    {
      imgObj := [];
      if images != None {
        var packs := images.value;
        for i := 0 to |packs|
          invariant imgObj == PackObjects(packs, i)
        {
          if packs[i] == NoPack || packs[i] == EmptyPack {
            continue;
          }
          var pack := packs[i].images;
          var temp: seq<string> := [];
          for j := 0 to |pack|
            invariant temp == PicturesOf(pack[..j])
          {
            assert pack[..j + 1][..j] == pack[..j];
            if pack[j] == None || pack[j] == Some("") {
              continue;
            }
            temp := temp + [pack[j].value];
          }
          assert pack[..|pack|] == pack;
          imgObj := imgObj + [temp];
        }
      }
    }

    /** The body of `export`'s question loop: heading, pictures, then the options. */
    method WriteQuestion(question: string, pics: seq<string>, options: seq<string>, correct: seq<int>)
      modifies ds
      ensures ds.doc == old(ds.doc) + QuestionBlocks(question, pics, options, correct)
    {
      ds.AddHeading(question, 1);
      for k := 0 to |pics|
        invariant ds.doc == old(ds.doc) + [Heading(question, 1)] + PictureBlocks(pics[..k])
      {
        assert PictureBlocks(pics[..k + 1]) == PictureBlocks(pics[..k]) + [Picture(pics[k])];
        ds.AddPicture(pics[k]);
      }
      assert pics[..|pics|] == pics;
      var head := ds.doc;
      for j := 0 to |options|
        invariant ds.doc == head + AnswerBlocks(options, correct, j)
      {
        if j in correct {
          ds.AddParagraphCorrect(options[j]);
        }
        ds.AddParagraph(options[j]);
      }
    }

    /** `export`: for each question a heading, its pictures and its options (a highlighted copy
        before each correct one) are appended to the document, which is then saved; the
        answer is False exactly when saving failed. */
    method Export(questions: seq<string>, answers: seq<seq<string>>, correct: seq<seq<int>>,
                  deckName: string, images: Option<seq<ImagePack>>, written: bool)
      returns (ok: bool)
      requires Covers(questions, answers, correct, ImageObjects(images), |questions|)
      modifies ds
      ensures ds.doc == old(ds.doc) + ExportBlocks(questions, answers, correct, ImageObjects(images), |questions|)
      ensures ok == written
    {
      var safeName := SafeName(deckName);
      var imgObj := ImageObjectsOf(images);
      for i := 0 to |questions|
        invariant ds.doc == old(ds.doc) + ExportBlocks(questions, answers, correct, imgObj, i)
      {
        WriteQuestion(questions[i], imgObj[i], answers[i], correct[i]);
      }
      var saved := ds.Save(written);
      if saved == Some(false) {
        return false;
      }
      return true;
    }
  }
}
