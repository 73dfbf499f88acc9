/** The riddle records and the decision logic of the two riddle handlers of
    server/server.go: `GET /riddles/{id}` shows a riddle, `POST /riddles/{id}/answer`
    checks an answer and shows the next riddle, the same one again, or the end page.
    Rendering is reduced to the data handed to the templates. */
module Server {
  import opened Wrappers
  import opened Text
  import opened Ids
  import Schedule

  datatype Riddle = Riddle(title: string, text: string, answer: string)

  /** The configuration the server loads at start-up: the game's start date and its riddles in order. */
  datatype Conf = Conf(startDate: Schedule.Time, riddles: seq<Riddle>)

  /** What the answer handler decides for riddle index `i`. */
  datatype Outcome =
    | NotFound
    | NoAnswerConfigured(index: nat)
    | WrongAnswer(index: nat)
    | Next(index: nat)
    | End

  /** What a handler sends back: a bare status, a riddle page, or the end page. */
  datatype Response =
    | Status(code: int)
    | RiddlePage(id: string, title: string, text: string, message: string)
    | EndPage

  const StatusBadRequest: int := 400
  const StatusNotFound: int := 404

  const NoAnswerMessage: string := "Aucune r\U{00E9}ponse configur\U{00E9}e pour cette \U{00E9}nigme."
  const WrongAnswerMessage: string := "Mauvaise r\U{00E9}ponse, essaie encore."

  /** The submission is accepted as the answer to `r`. */
  predicate Matches(r: Riddle, submitted: string) {
    Normalize(submitted) == Normalize(r.answer)
  }

  /** The outcome of submitting `submitted` as the answer to riddle `i`. */
  function Decide(riddles: seq<Riddle>, i: int, submitted: string): (o: Outcome)
    ensures o == NotFound <==> !(0 <= i < |riddles|)
    ensures o.NoAnswerConfigured? <==> 0 <= i < |riddles| && Normalize(riddles[i].answer) == []
    ensures o.WrongAnswer? <==>
      0 <= i < |riddles| && Normalize(riddles[i].answer) != [] && !Matches(riddles[i], submitted)
    ensures o.Next? <==>
      0 <= i < |riddles| && Normalize(riddles[i].answer) != [] && Matches(riddles[i], submitted)
      && i + 1 < |riddles|
    ensures o.NoAnswerConfigured? || o.WrongAnswer? ==> o.index == i
    ensures o.Next? ==> o.index == i + 1
  {
    if i < 0 || i >= |riddles| then NotFound
    else
      var answer := Normalize(submitted);
      var expected := Normalize(riddles[i].answer);
      if expected == [] then NoAnswerConfigured(i)
      else if answer == expected then
        if i + 1 >= |riddles| then End else Next(i + 1)
      else WrongAnswer(i)
  }

  /** The indices an outcome carries are riddle indices. */
  predicate ValidOutcome(riddles: seq<Riddle>, o: Outcome) {
    (o.NoAnswerConfigured? || o.WrongAnswer? || o.Next?) ==> o.index < |riddles|
  }

  /** The data the answer handler hands to the templates for an outcome;
      `id` is the path id the request came with. */
  function Render(riddles: seq<Riddle>, id: string, o: Outcome): (resp: Response)
    requires ValidOutcome(riddles, o)
    ensures resp.Status? <==> o == NotFound
    ensures resp == EndPage <==> o == End
    ensures resp.RiddlePage? && resp.message == "" <==> o.Next?
    ensures resp.RiddlePage? && resp.message == NoAnswerMessage <==> o.NoAnswerConfigured?
    ensures resp.RiddlePage? && resp.message == WrongAnswerMessage <==> o.WrongAnswer?
    ensures resp.RiddlePage? ==>
      resp.title == riddles[o.index].title && resp.text == riddles[o.index].text
      && resp.id == (if o.Next? then FormatInt(o.index) else id)
  {
    assert NoAnswerMessage[0] != WrongAnswerMessage[0];
    match o
    case NotFound => Status(StatusNotFound)
    case NoAnswerConfigured(i) => RiddlePage(id, riddles[i].title, riddles[i].text, NoAnswerMessage)
    case WrongAnswer(i) => RiddlePage(id, riddles[i].title, riddles[i].text, WrongAnswerMessage)
    case Next(j) => RiddlePage(FormatInt(j), riddles[j].title, riddles[j].text, "")
    case End => EndPage
  }

  /** `GET /riddles/{id}`. */
  function HandleView(conf: Conf, id: string): (resp: Response)
    ensures resp == Status(StatusBadRequest) <==> ParseInt8(id).None?
    ensures resp == Status(StatusNotFound) <==>
      ParseInt8(id).Some? && !(0 <= ParseInt8(id).value < |conf.riddles|)
    ensures resp.RiddlePage? <==> ParseInt8(id).Some? && 0 <= ParseInt8(id).value < |conf.riddles|
    ensures resp.RiddlePage? ==>
      var i := ParseInt8(id).value;
      resp == RiddlePage(id, conf.riddles[i].title, conf.riddles[i].text, "")
    ensures resp != EndPage
  {
    match ParseInt8(id)
    case None => Status(StatusBadRequest)
    case Some(i) =>
      if i < 0 || i >= |conf.riddles| then Status(StatusNotFound)
      else RiddlePage(id, conf.riddles[i].title, conf.riddles[i].text, "")
  }

  /** `POST /riddles/{id}/answer`. The submitted form is `None` when it cannot
      be parsed; a form without an `answer` field submits the empty string. */
  function HandleAnswer(conf: Conf, id: string, form: Option<string>): (resp: Response)
    ensures ParseInt8(id).None? ==> resp == Status(StatusBadRequest)
    ensures ParseInt8(id).Some? && !(0 <= ParseInt8(id).value < |conf.riddles|) ==>
      resp == Status(StatusNotFound)
    ensures ParseInt8(id).Some? && 0 <= ParseInt8(id).value < |conf.riddles| && form.None? ==>
      resp == Status(StatusBadRequest)
    ensures ParseInt8(id).Some? && form.Some? ==>
      resp == Render(conf.riddles, id, Decide(conf.riddles, ParseInt8(id).value, form.value))
  {
    match ParseInt8(id)
    case None => Status(StatusBadRequest)
    case Some(i) =>
      if i < 0 || i >= |conf.riddles| then Status(StatusNotFound)
      else match form
        case None => Status(StatusBadRequest)
        case Some(submitted) => Render(conf.riddles, id, Decide(conf.riddles, i, submitted))
  }

  /** Every riddle page either handler can show belongs to an index `0 <= i < |riddles|`
      that also fits in the int8 id range: riddles past index 127 can never be shown
      through their own id. */
  lemma ShownRiddlesFitInt8(conf: Conf, id: string)
    requires HandleView(conf, id).RiddlePage?
    ensures 0 <= ParseInt8(id).value <= MaxInt8
  {
  }

  /** Matching ignores the case of ASCII letters and surrounding white space:
      the padded, re-cased submission has the same outcome as the bare one. */
  lemma {:induction false} DecideIgnoresCaseAndPadding(
    riddles: seq<Riddle>, i: int, p: string, s: string, q: string, t: string)
    requires AllSpace(p) && AllSpace(q) && SameIgnoringCase(s, t)
    ensures Decide(riddles, i, p + s + q) == Decide(riddles, i, t)
  {
    NormalizeIgnoresPadding(p, s, q);
    NormalizeIgnoresCase(s, t);
  }

  /** A riddle without an answer reports so whatever is submitted, and never rejects. */
  lemma NoAnswerWhateverSubmitted(riddles: seq<Riddle>, i: int, a: string, b: string)
    requires 0 <= i < |riddles| && Normalize(riddles[i].answer) == []
    ensures Decide(riddles, i, a) == Decide(riddles, i, b) == NoAnswerConfigured(i)
  {
  }

  /** A wrong answer re-renders the same riddle under the same id, so the
      visitor's cursor does not move and submitting it again gives the same page. */
  lemma {:induction false} WrongAnswerKeepsCursor(conf: Conf, id: string, a: string)
    requires HandleAnswer(conf, id, Some(a)).RiddlePage?
    requires HandleAnswer(conf, id, Some(a)).message == WrongAnswerMessage
    ensures HandleAnswer(conf, id, Some(a)).id == id
    ensures HandleAnswer(conf, HandleAnswer(conf, id, Some(a)).id, Some(a)) == HandleAnswer(conf, id, Some(a))
    ensures HandleView(conf, id).RiddlePage?
    ensures HandleView(conf, id).title == HandleAnswer(conf, id, Some(a)).title
    ensures HandleView(conf, id).text == HandleAnswer(conf, id, Some(a)).text
  {
    var o := Decide(conf.riddles, ParseInt8(id).value, a);
    assert o.WrongAnswer? by {
      assert NoAnswerMessage != WrongAnswerMessage by {
        assert NoAnswerMessage[0] != WrongAnswerMessage[0];
      }
    }
  }

  /** A wrong answer to a riddle that has one re-renders that riddle under the
      request's id, with the retry message. */
  lemma {:induction false} WrongAnswerPage(conf: Conf, id: string, a: string)
    requires ParseInt8(id).Some? && 0 <= ParseInt8(id).value < |conf.riddles|
    requires Normalize(conf.riddles[ParseInt8(id).value].answer) != []
    requires !Matches(conf.riddles[ParseInt8(id).value], a)
    ensures HandleAnswer(conf, id, Some(a)) ==
      var r := conf.riddles[ParseInt8(id).value];
      RiddlePage(id, r.title, r.text, WrongAnswerMessage)
  {
    var i := ParseInt8(id).value;
    assert Decide(conf.riddles, i, a) == WrongAnswer(i);
  }

  /** Any answer to a riddle without a configured answer re-renders that riddle
      under the request's id, with the no-answer message. */
  lemma {:induction false} NoAnswerPage(conf: Conf, id: string, a: string)
    requires ParseInt8(id).Some? && 0 <= ParseInt8(id).value < |conf.riddles|
    requires Normalize(conf.riddles[ParseInt8(id).value].answer) == []
    ensures HandleAnswer(conf, id, Some(a)) ==
      var r := conf.riddles[ParseInt8(id).value];
      RiddlePage(id, r.title, r.text, NoAnswerMessage)
  {
    var i := ParseInt8(id).value;
    assert Decide(conf.riddles, i, a) == NoAnswerConfigured(i);
  }

  /** A riddle page sent back after an answer shows the same riddle a `GET` of
      its id shows, as long as every riddle index fits the int8 id range. */
  lemma {:induction false} AnswerPageAgreesWithView(conf: Conf, id: string, form: Option<string>)
    requires |conf.riddles| <= MaxInt8 + 1
    requires HandleAnswer(conf, id, form).RiddlePage?
    ensures HandleView(conf, HandleAnswer(conf, id, form).id).RiddlePage?
    ensures HandleView(conf, HandleAnswer(conf, id, form).id).title == HandleAnswer(conf, id, form).title
    ensures HandleView(conf, HandleAnswer(conf, id, form).id).text == HandleAnswer(conf, id, form).text
  {
    var resp := HandleAnswer(conf, id, form);
    assert ParseInt8(id).Some? && form.Some?;
    var i := ParseInt8(id).value;
    var o := Decide(conf.riddles, i, form.value);
    assert resp == Render(conf.riddles, id, o);
    match o
    case Next(j) =>
      ParseFormatRoundTrip(j);
      assert resp.id == FormatInt(j);
    case NoAnswerConfigured(_) =>
      assert resp.id == id;
    case WrongAnswer(_) =>
      assert resp.id == id;
  }

  /** With more than 128 riddles, a correct answer to riddle 127 links to the
      id of riddle 128, which the view handler refuses as a bad request. */
  lemma {:induction false} NextIdBeyondInt8IsRefused(conf: Conf, a: string)
    requires |conf.riddles| > MaxInt8 + 1 && Solves(conf.riddles[MaxInt8], a)
    ensures HandleAnswer(conf, FormatInt(MaxInt8), Some(a)) ==
      RiddlePage(FormatInt(MaxInt8 + 1), conf.riddles[MaxInt8 + 1].title, conf.riddles[MaxInt8 + 1].text, "")
    ensures HandleView(conf, FormatInt(MaxInt8 + 1)) == Status(StatusBadRequest)
  {
    CorrectAnswerAdvances(conf, MaxInt8, a);
    ParseRefusesWideIds(MaxInt8 + 1);
  }

  /** A visitor answering from page to page: each answer is posted to the id of
      the page the previous answer returned, until the answers run out or a
      page without a form (an error status or the end page) comes back. */
  function Play(conf: Conf, id: string, answers: seq<string>): (resp: Response)
    requires answers != []
    decreases |answers|
  {
    var resp := HandleAnswer(conf, id, Some(answers[0]));
    if |answers| == 1 then resp
    else match resp
      case RiddlePage(next, _, _, _) => Play(conf, next, answers[1..])
      case _ => resp
  }

  /** `r` has an answer configured and `a` matches it. */
  predicate Solves(r: Riddle, a: string) {
    Normalize(r.answer) != [] && Matches(r, a)
  }

  /** `answers` holds, in order, a solution of every riddle from index `i` on. */
  predicate SolvesFrom(riddles: seq<Riddle>, i: nat, answers: seq<string>)
    decreases |answers|
  {
    && i + |answers| == |riddles|
    && (answers != [] ==> Solves(riddles[i], answers[0]) && SolvesFrom(riddles, i + 1, answers[1..]))
  }

  /** A correct answer posted to the id FormatInt writes for riddle `i` shows
      riddle `i + 1` under its own id, or the end page after the last riddle. */
  lemma CorrectAnswerAdvances(conf: Conf, i: nat, a: string)
    requires i < |conf.riddles| && i <= MaxInt8
    requires Solves(conf.riddles[i], a)
    ensures HandleAnswer(conf, FormatInt(i), Some(a)) ==
      if i + 1 < |conf.riddles|
      then RiddlePage(FormatInt(i + 1), conf.riddles[i + 1].title, conf.riddles[i + 1].text, "")
      else EndPage
  {
    ParseFormatRoundTrip(i);
    var o := Decide(conf.riddles, i, a);
    assert HandleAnswer(conf, FormatInt(i), Some(a)) == Render(conf.riddles, FormatInt(i), o);
    assert o == if i + 1 < |conf.riddles| then Next(i + 1) else End;
  }

  /** One correct answer in a session: the visitor moves on to the next riddle's id. */
  lemma PlayAdvances(conf: Conf, i: nat, answers: seq<string>)
    requires |conf.riddles| <= MaxInt8 + 1
    requires |answers| > 1 && SolvesFrom(conf.riddles, i, answers)
    ensures Play(conf, FormatInt(i), answers) == Play(conf, FormatInt(i + 1), answers[1..])
  {
    CorrectAnswerAdvances(conf, i, answers[0]);
  }

  /** The last correct answer of a session ends the game. */
  lemma PlayEnds(conf: Conf, i: nat, answers: seq<string>)
    requires |conf.riddles| <= MaxInt8 + 1
    requires |answers| == 1 && SolvesFrom(conf.riddles, i, answers)
    ensures Play(conf, FormatInt(i), answers) == EndPage
  {
    CorrectAnswerAdvances(conf, i, answers[0]);
  }

  /** Answering every riddle correctly, starting on riddle `i`, ends on the end
      page, provided the game has at most 128 riddles. */
  lemma {:induction false} SolvingInOrderReachesEnd(conf: Conf, i: nat, answers: seq<string>)
    requires |conf.riddles| <= MaxInt8 + 1
    requires answers != [] && SolvesFrom(conf.riddles, i, answers)
    ensures Play(conf, FormatInt(i), answers) == EndPage
    decreases |answers|
  {
    if |answers| == 1 {
      PlayEnds(conf, i, answers);
    } else {
      PlayAdvances(conf, i, answers);
      SolvingInOrderReachesEnd(conf, i + 1, answers[1..]);
    }
  }

  /** The keys of the answers used in the scenarios below. */
  lemma FoxKeys()
    ensures Normalize("fox") == "fox" && Normalize("FOX") == "fox"
  {
    NormalizeFixesKeys("fox");
    NormalizeIgnoresCase("FOX", "fox");
  }

  /** Scenario, first step: riddle 0 of two expects "fox"; "FOX" there shows riddle 1. */
  lemma FoxFirstAnswer(conf: Conf)
    requires |conf.riddles| == 2 && conf.riddles[0].answer == "fox"
    ensures HandleAnswer(conf, "0", Some("FOX")) ==
      RiddlePage("1", conf.riddles[1].title, conf.riddles[1].text, "")
  {
    FoxKeys();
    assert FormatInt(0) == "0" && FormatInt(1) == "1";
    CorrectAnswerAdvances(conf, 0, "FOX");
  }

  /** Scenario, last step: "fox" on riddle 1, the last one, ends the game. */
  lemma FoxLastAnswer(conf: Conf)
    requires |conf.riddles| == 2 && conf.riddles[1].answer == "fox"
    ensures HandleAnswer(conf, "1", Some("fox")) == EndPage
  {
    FoxKeys();
    assert FormatInt(1) == "1";
    CorrectAnswerAdvances(conf, 1, "fox");
  }

  /** Scenario, whole game: answering "FOX" then "fox" from riddle 0 ends the game. */
  lemma FoxPlay(conf: Conf)
    requires |conf.riddles| == 2
    requires conf.riddles[0].answer == "fox" && conf.riddles[1].answer == "fox"
    ensures Play(conf, "0", ["FOX", "fox"]) == EndPage
  {
    FoxKeys();
    assert FormatInt(0) == "0";
    assert SolvesFrom(conf.riddles, 0, ["FOX", "fox"]) by {
      assert ["FOX", "fox"][1..] == ["fox"];
      assert ["fox"][1..] == [];
    }
    SolvingInOrderReachesEnd(conf, 0, ["FOX", "fox"]);
  }

  /** The key of "answer", and of two spellings of it that differ in case. */
  lemma AnswerKeys()
    ensures Normalize("answer") == "answer"
    ensures Normalize("Answer") == Normalize("answer")
    ensures Normalize("ANSWER") == Normalize("answer")
  {
    NormalizeFixesKeys("answer");
    NormalizeIgnoresCase("Answer", "answer");
    NormalizeIgnoresCase("ANSWER", "answer");
  }

  /** Scenario: with "Answer" expected, "ANSWER" padded with spaces and "answer"
      lead to the same outcome, and it is not a rejection. */
  lemma PaddedUpperCaseScenario(riddles: seq<Riddle>, i: int)
    requires 0 <= i < |riddles| && riddles[i].answer == "Answer"
    ensures Decide(riddles, i, "  " + "ANSWER" + " ") == Decide(riddles, i, "answer")
    ensures Decide(riddles, i, "answer").Next? || Decide(riddles, i, "answer") == End
  {
    AnswerKeys();
    NormalizeIgnoresPadding("  ", "ANSWER", " ");
  }
}
