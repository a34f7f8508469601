/** Questions put to the user: validation of the tool's input, validation of answers, and
    the answers chosen when the user does not respond.
 */
module AskUserModel {
  import opened Text
  import opened Wrappers

  const HEADER_MAX_LEN: nat := 12
  const MAX_QUESTIONS: nat := 4
  const MIN_OPTIONS: nat := 2
  const MAX_OPTIONS: nat := 4

  datatype AskUserOption = AskUserOption(title: string, description: string, preview: Option<string>, recommended: bool)

  datatype Question = Question(question: string, header: string, options: seq<AskUserOption>, multiSelect: bool)

  type Answers = map<string, string>

  // ---------------------------------------------------------------- input

  datatype InputError =
    | NoQuestions | TooManyQuestions
    | EmptyQuestion | EmptyHeader | LongHeader | DuplicateQuestion
    | WrongOptionCount | EmptyTitle | DuplicateTitle | PreviewWithMultiSelect

  predicate OptionOk(o: AskUserOption, multiSelect: bool) {
    !IsBlank(o.title) && !(multiSelect && o.preview.Some?)
  }

  predicate DistinctTitles(options: seq<AskUserOption>) {
    forall i, j | 0 <= i < j < |options| :: options[i].title != options[j].title
  }

  predicate OptionsOk(q: Question) {
    DistinctTitles(q.options) && forall i | 0 <= i < |q.options| :: OptionOk(q.options[i], q.multiSelect)
  }

  predicate QuestionOk(q: Question) {
    && !IsBlank(q.question) && !IsBlank(q.header) && |q.header| <= HEADER_MAX_LEN
    && MIN_OPTIONS <= |q.options| <= MAX_OPTIONS
    && OptionsOk(q)
  }

  predicate DistinctQuestions(qs: seq<Question>) {
    forall i, j | 0 <= i < j < |qs| :: qs[i].question != qs[j].question
  }

  /** What the tool accepts: one to four well-formed questions with different texts. */
  predicate InputOk(qs: seq<Question>) {
    && 1 <= |qs| <= MAX_QUESTIONS
    && DistinctQuestions(qs)
    && forall i | 0 <= i < |qs| :: QuestionOk(qs[i])
  }

  method ValidateOptions(q: Question) returns (r: Result<(), InputError>)
    ensures r.Ok? <==> OptionsOk(q)
  {
    hide IsBlank;
    var seenTitles: set<string> := {};
    for i := 0 to |q.options|
      invariant forall title :: title in seenTitles <==> exists j :: 0 <= j < i && q.options[j].title == title
      invariant DistinctTitles(q.options[..i])
      invariant forall j | 0 <= j < i :: OptionOk(q.options[j], q.multiSelect)
    {
      var option := q.options[i];
      if IsBlank(option.title) {
        return Err(EmptyTitle);
      }
      if option.title in seenTitles {
        return Err(DuplicateTitle);
      }
      seenTitles := seenTitles + {option.title};
      if q.multiSelect && option.preview.Some? {
        return Err(PreviewWithMultiSelect);
      }
    }
    assert q.options[..|q.options|] == q.options;
    r := Ok(());
  }

  lemma DistinctGrow(qs: seq<Question>, i: nat)
    requires i < |qs|
    ensures DistinctQuestions(qs[..i + 1]) <==> DistinctQuestions(qs[..i]) && qs[i].question !in Texts(qs[..i])
  {
    var before, now := qs[..i], qs[..i + 1];
    if DistinctQuestions(now) {
      forall j | 0 <= j < i ensures before[j].question != qs[i].question {
        assert now[j].question != now[i].question;
      }
      forall j, k | 0 <= j < k < i ensures before[j].question != before[k].question {
        assert now[j].question != now[k].question;
      }
    }
    if DistinctQuestions(before) && qs[i].question !in Texts(before) {
      forall j, k | 0 <= j < k < |now| ensures now[j].question != now[k].question {
        assert now[j] == before[j] && before[j].question in Texts(before);
      }
    }
  }

  lemma {:induction false} DistinctPrefix(qs: seq<Question>, i: nat)
    requires i <= |qs| && DistinctQuestions(qs)
    ensures DistinctQuestions(qs[..i])
  {
    var p := qs[..i];
    forall j, k | 0 <= j < k < i ensures p[j].question != p[k].question {
      assert qs[j].question != qs[k].question;
    }
  }

  method ValidateInput(qs: seq<Question>) returns (r: Result<(), InputError>)
    ensures r.Ok? <==> InputOk(qs)
  {
    hide IsBlank, OptionsOk, DistinctQuestions, Texts;
    if qs == [] {
      return Err(NoQuestions);
    }
    if |qs| > MAX_QUESTIONS {
      return Err(TooManyQuestions);
    }
    var seenQuestions: set<string> := {};
    NoTexts();
    for i := 0 to |qs|
      invariant seenQuestions == Texts(qs[..i])
      invariant DistinctQuestions(qs[..i])
      invariant forall j | 0 <= j < i :: QuestionOk(qs[j])
    {
      var q := qs[i];
      if IsBlank(q.question) {
        return Err(EmptyQuestion);
      }
      if IsBlank(q.header) {
        return Err(EmptyHeader);
      }
      if |q.header| > HEADER_MAX_LEN {
        return Err(LongHeader);
      }
      DistinctGrow(qs, i);
      TextsGrow(qs, i);
      if q.question in seenQuestions {
        if DistinctQuestions(qs) { DistinctPrefix(qs, i + 1); }
        return Err(DuplicateQuestion);
      }
      seenQuestions := seenQuestions + {q.question};
      if |q.options| < MIN_OPTIONS || |q.options| > MAX_OPTIONS {
        return Err(WrongOptionCount);
      }
      var options := ValidateOptions(q);
      if options.Err? {
        return options;
      }
    }
    assert qs[..|qs|] == qs;
    r := Ok(());
  }

  lemma NoTexts()
    ensures Texts([]) == {} && DistinctQuestions([])
  {
  }

  // ---------------------------------------------------------------- answers

  function Texts(qs: seq<Question>): set<string> {
    set i | 0 <= i < |qs| :: qs[i].question
  }

  /** `validate_answers`: one entry for every question and no other, none of them blank. */
  predicate AnswersOk(qs: seq<Question>, answers: Answers) {
    answers.Keys == Texts(qs) && forall k | k in answers :: !IsBlank(answers[k])
  }

  function Recommended(options: seq<AskUserOption>): seq<string> {
    if options == [] then []
    else (if options[0].recommended then [options[0].title] else []) + Recommended(options[1..])
  }

  function JoinComma(titles: seq<string>): string
    requires titles != []
  {
    if |titles| == 1 then titles[0] else titles[0] + ", " + JoinComma(titles[1..])
  }

  /** The answer chosen for one question: all recommended titles, or the first of them. */
  function AutoAnswer(q: Question): string
    requires Recommended(q.options) != []
  {
    if q.multiSelect then JoinComma(Recommended(q.options)) else Recommended(q.options)[0]
  }

  predicate AllRecommend(qs: seq<Question>) {
    forall i | 0 <= i < |qs| :: Recommended(qs[i].options) != []
  }

  /** The answers chosen for all questions; of two questions with one text the later wins. */
  function Chosen(qs: seq<Question>): Answers
    requires AllRecommend(qs)
  {
    if qs == [] then map[]
    else
      var n := |qs| - 1;
      Chosen(qs[..n])[qs[n].question := AutoAnswer(qs[n])]
  }

  method AutoRecommendedAnswers(qs: seq<Question>) returns (r: Option<Answers>)
    ensures r.Some? <==> AllRecommend(qs)
    ensures r.Some? ==> r.value == Chosen(qs)
  {
    hide AutoAnswer;
    var answers: Answers := map[];
    for i := 0 to |qs|
      invariant AllRecommend(qs[..i])
      invariant answers == Chosen(qs[..i])
    {
      var recommended := Recommended(qs[i].options);
      if recommended == [] {
        return None;
      }
      assert qs[..i + 1][..i] == qs[..i];
      answers := answers[qs[i].question := AutoAnswer(qs[i])];
    }
    assert qs[..|qs|] == qs;
    r := Some(answers);
  }

  lemma {:induction false} ChosenKeys(qs: seq<Question>)
    requires AllRecommend(qs)
    ensures Chosen(qs).Keys == Texts(qs)
  {
    hide AutoAnswer, Texts;
    if qs == [] {
      NoTexts();
    } else {
      var n := |qs| - 1;
      ChosenKeys(qs[..n]);
      TextsGrow(qs, n);
      assert qs[..n + 1] == qs;
    }
  }

  /** Every question is answered by what it recommends. */
  lemma {:induction false} ChosenAnswers(qs: seq<Question>, i: nat)
    requires AllRecommend(qs) && DistinctQuestions(qs) && i < |qs|
    ensures qs[i].question in Chosen(qs) && Chosen(qs)[qs[i].question] == AutoAnswer(qs[i])
  {
    hide AutoAnswer;
    var n := |qs| - 1;
    if i < n {
      DistinctPrefix(qs, n);
      ChosenAnswers(qs[..n], i);
      assert qs[i].question != qs[n].question;
    }
  }

  lemma TextsGrow(qs: seq<Question>, i: nat)
    requires i < |qs|
    ensures Texts(qs[..i + 1]) == Texts(qs[..i]) + {qs[i].question}
  {
    forall t | t in Texts(qs[..i]) ensures t in Texts(qs[..i + 1]) {
      var j :| 0 <= j < i && qs[..i][j].question == t;
      assert qs[..i + 1][j].question == t;
    }
    assert qs[..i + 1][i].question in Texts(qs[..i + 1]);
  }

  lemma {:induction false} RecommendedTitles(options: seq<AskUserOption>, title: string)
    requires title in Recommended(options)
    ensures exists i :: 0 <= i < |options| && options[i].title == title && options[i].recommended
  {
    if options[0].recommended && options[0].title == title {
    } else {
      RecommendedTitles(options[1..], title);
      var i :| 0 <= i < |options[1..]| && options[1..][i].title == title && options[1..][i].recommended;
      assert options[i + 1] == options[1..][i];
    }
  }

  lemma {:induction false} JoinNotBlank(titles: seq<string>)
    requires titles != [] && !IsBlank(titles[0])
    ensures !IsBlank(JoinComma(titles))
  {
    BlankIffAllWhitespace(titles[0]);
    var i :| 0 <= i < |titles[0]| && !IsWhitespace(titles[0][i]);
    assert JoinComma(titles)[i] == titles[0][i];
    BlankIffAllWhitespace(JoinComma(titles));
  }

  lemma AutoAnswerNotBlank(q: Question)
    requires QuestionOk(q) && Recommended(q.options) != []
    ensures !IsBlank(AutoAnswer(q))
  {
    hide IsBlank;
    var first := Recommended(q.options)[0];
    RecommendedTitles(q.options, first);
    var i :| 0 <= i < |q.options| && q.options[i].title == first && q.options[i].recommended;
    assert OptionOk(q.options[i], q.multiSelect);
    JoinNotBlank(Recommended(q.options));
  }

  /** Answers chosen automatically for accepted input always pass the validation that
      answers of the user have to pass. */
  lemma AutoAnswersPassValidation(qs: seq<Question>)
    requires InputOk(qs) && AllRecommend(qs)
    ensures AnswersOk(qs, Chosen(qs))
  {
    hide IsBlank, Chosen, AutoAnswer;
    ChosenKeys(qs);
    forall k | k in Chosen(qs) ensures !IsBlank(Chosen(qs)[k]) {
      assert k in Texts(qs);
      var i :| 0 <= i < |qs| && qs[i].question == k;
      ChosenAnswers(qs, i);
      AutoAnswerNotBlank(qs[i]);
    }
  }

  /** The condition under which a deadline for automatic selection is announced is the
      condition under which automatic selection succeeds. */
  lemma {:induction false} DeadlineMatchesSelection(options: seq<AskUserOption>)
    ensures Recommended(options) != [] <==> exists i :: 0 <= i < |options| && options[i].recommended
  {
    if options != [] {
      DeadlineMatchesSelection(options[1..]);
      if i :| 0 <= i < |options[1..]| && options[1..][i].recommended {
        assert options[i + 1].recommended;
      }
      if i :| 0 <= i < |options| && options[i].recommended {
        if i > 0 { assert options[1..][i - 1].recommended; }
      }
    }
  }

  // ---------------------------------------------------------------- in plain terms

  /** Answers are accepted exactly when every question has one, nothing else has one, and each
      has a character that is no whitespace. */
  lemma AnswersOkExactly(qs: seq<Question>, answers: Answers)
    ensures AnswersOk(qs, answers) <==>
              && (forall i | 0 <= i < |qs| :: qs[i].question in answers)
              && (forall k | k in answers :: exists i | 0 <= i < |qs| :: qs[i].question == k)
              && (forall k | k in answers :: exists i | 0 <= i < |answers[k]| :: !IsWhitespace(answers[k][i]))
  {
    forall k | k in answers
      ensures IsBlank(answers[k]) <==> !exists i | 0 <= i < |answers[k]| :: !IsWhitespace(answers[k][i])
    {
      BlankIffAllWhitespace(answers[k]);
    }
    hide IsBlank;
    assert forall i | 0 <= i < |qs| :: qs[i].question in Texts(qs);
  }

  /** The recommended titles: option by option, in their order. */
  lemma {:induction false} RecommendedSplits(a: seq<AskUserOption>, b: seq<AskUserOption>)
    ensures Recommended(a + b) == Recommended(a) + Recommended(b)
  {
    if a == [] {
      assert a + b == b;
    } else {
      RecommendedSplits(a[1..], b);
      assert (a + b)[0] == a[0] && (a + b)[1..] == a[1..] + b;
      Assoc(if a[0].recommended then [a[0].title] else [], Recommended(a[1..]), Recommended(b));
    }
  }

  lemma RecommendedOne(o: AskUserOption)
    ensures Recommended([o]) == if o.recommended then [o.title] else []
  {
    assert [o][1..] == [];
  }

  lemma {:induction false} JoinCommaSplits(a: seq<string>, b: seq<string>)
    requires a != [] && b != []
    ensures JoinComma(a + b) == JoinComma(a) + ", " + JoinComma(b)
  {
    if |a| == 1 {
      assert (a + b)[1..] == b;
    } else {
      JoinCommaSplits(a[1..], b);
      assert (a + b)[1..] == a[1..] + b;
      var rest := JoinComma(a[1..]);
      assert a[0] + ", " + (rest + ", " + JoinComma(b)) == a[0] + ", " + rest + ", " + JoinComma(b);
    }
  }

  /** The automatic answer to a question with a single choice is its first recommended title;
      with several, all of them, separated by commas: the answer for more options is that for
      the first of them, followed by that for the others. */
  lemma AutoAnswerExactly(q: Question, first: seq<AskUserOption>, others: seq<AskUserOption>)
    requires q.options == first + others && Recommended(first) != []
    ensures Recommended(q.options) != []
    ensures !q.multiSelect ==> AutoAnswer(q) == AutoAnswer(q.(options := first)) == Recommended(first)[0]
    ensures q.multiSelect && Recommended(others) == [] ==> AutoAnswer(q) == AutoAnswer(q.(options := first))
    ensures q.multiSelect && Recommended(others) != [] ==>
              AutoAnswer(q) == AutoAnswer(q.(options := first)) + ", " + AutoAnswer(q.(options := others))
    ensures |Recommended(first)| == 1 ==> AutoAnswer(q.(options := first)) == Recommended(first)[0]
  {
    RecommendedSplits(first, others);
    if Recommended(others) == [] {
      assert Recommended(first) + [] == Recommended(first);
    } else {
      JoinCommaSplits(Recommended(first), Recommended(others));
    }
  }
}
