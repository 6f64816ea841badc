/** The answer-option editors of the question form: one for single-choice
    questions (exactly one correct letter) and one for multiple-choice
    questions (any set of correct letters). Both start from options A, B, C,
    allow between two and eight options, and letter new options by position. */
module OptionEdit {
  import opened Wrappers
  import opened Domain
  import opened Text

  const MinOptions: nat := 2
  const MaxOptions: nat := 8

  /** The warning shown when a ninth option is requested. */
  const TooManyOptions: string := "\U{6700}\U{591A}\U{53EA}\U{80FD}\U{6DFB}\U{52A0}8\U{4E2A}\U{9009}\U{9879}\U{FF08}A-H\U{FF09}"

  /** `String.fromCharCode(65 + n)`: the n-th capital letter. */
  function Letter(n: nat): (s: string)
    requires n < MaxOptions
    ensures |s| == 1 && 'A' <= s[0] <= 'H'
  {
    [(65 + n) as char]
  }

  lemma LetterInjective(m: nat, n: nat)
    requires m < MaxOptions && n < MaxOptions
    ensures Letter(m) == Letter(n) <==> m == n
  {
    if Letter(m) == Letter(n) {
      assert Letter(m)[0] == Letter(n)[0];
    }
  }

  /** The options both editors start with: A, B and C, all with empty text. */
  function InitialOptions(): (r: seq<Choice>)
    ensures |r| == 3
  {
    [Choice("A", ""), Choice("B", ""), Choice("C", "")]
  }

  /** The option letters, in order. */
  function Values(options: seq<Choice>): (r: seq<string>)
    ensures |r| == |options|
    ensures forall i :: 0 <= i < |options| ==> r[i] == options[i].value
  {
    seq(|options|, i requires 0 <= i < |options| => options[i].value)
  }

  /** `handleAddOption`: appends the next letter with empty text, or refuses
      with a warning when eight options exist. */
  function AddOption(options: seq<Choice>): (r: Result<seq<Choice>, string>)
    ensures r.Err? <==> |options| >= MaxOptions
    ensures r.Err? ==> r.error == TooManyOptions
    ensures r.Ok? ==> |r.value| == |options| + 1 && r.value[..|options|] == options
    ensures r.Ok? ==> r.value[|options|] == Choice(Letter(|options|), "")
  {
    if |options| >= MaxOptions then Err(TooManyOptions)
    else
      var r := options + [Choice(Letter(|options|), "")];
      assert r[..|options|] == options;
      Ok(r)
  }

  /** `options.filter((_, i) => i !== index)`. */
  function RemoveAt(options: seq<Choice>, index: nat): (r: seq<Choice>)
    requires index < |options|
    ensures |r| == |options| - 1
    ensures forall i :: 0 <= i < index ==> r[i] == options[i]
    ensures forall i :: index <= i < |r| ==> r[i] == options[i + 1]
  {
    options[..index] + options[index + 1..]
  }

  /** `handleOptionChange`: the option at `index` gets the new text. */
  function ChangeLabel(options: seq<Choice>, index: nat, text: string): (r: seq<Choice>)
    requires index < |options|
    ensures |r| == |options|
    ensures r[index] == Choice(options[index].value, text)
    ensures forall i :: 0 <= i < |options| && i != index ==> r[i] == options[i]
    ensures Values(r) == Values(options)
  {
    options[index := options[index].(caption := text)]
  }

  /** The option list the editors keep between two and eight entries. */
  predicate CountInRange(options: seq<Choice>) {
    MinOptions <= |options| <= MaxOptions
  }

  /** No two options share a letter. */
  predicate DistinctValues(options: seq<Choice>) {
    forall i, j :: 0 <= i < j < |options| ==> options[i].value != options[j].value
  }

  /** What `setContent` receives: `options` and `correct` may be missing. */
  datatype RawContent = RawContent(options: Option<seq<Choice>>, correct: Option<Correct>)

  // ---------------------------------------------------------------------------
  // Single choice.

  datatype SingleEditor = SingleEditor(options: seq<Choice>, correct: string)

  function SingleInit(): (ed: SingleEditor)
    ensures SingleValid(ed)
  {
    var ed := SingleEditor(InitialOptions(), "A");
    assert ed.options[0].value == "A";
    ed
  }

  /** The single-choice editor's invariant: two to eight options, and the
      correct letter is the letter of one of them. */
  predicate SingleValid(ed: SingleEditor) {
    CountInRange(ed.options) && ed.correct in Values(ed.options)
  }

  /** `handleAddOption`: the warning at eight options; otherwise the next
      positional letter is appended with empty text. */
  function SingleAdd(ed: SingleEditor): (r: Result<SingleEditor, string>)
    ensures r.Err? <==> |ed.options| >= MaxOptions
    ensures r.Err? ==> r.error == TooManyOptions
    ensures r.Ok? ==> r.value.correct == ed.correct
    ensures r.Ok? ==> r.value.options == ed.options + [Choice(Letter(|ed.options|), "")]
  {
    match AddOption(ed.options)
    case Err(e) => Err(e)
    case Ok(options) => Ok(ed.(options := options))
  }

  /** `handleRemoveOption`: ignored at two options or fewer; otherwise drops the
      option, and when it held the correct letter the new first option's letter
      becomes correct. */
  function SingleRemove(ed: SingleEditor, index: nat): (r: SingleEditor)
    requires index < |ed.options|
    ensures |ed.options| <= MinOptions ==> r == ed
    ensures |ed.options| > MinOptions ==> r.options == RemoveAt(ed.options, index)
    ensures |ed.options| > MinOptions && ed.correct == ed.options[index].value ==>
              r.correct == r.options[0].value
    ensures ed.correct != ed.options[index].value ==> r.correct == ed.correct
  {
    if |ed.options| <= MinOptions then ed
    else
      var options := RemoveAt(ed.options, index);
      if ed.correct == ed.options[index].value then SingleEditor(options, options[0].value)
      else SingleEditor(options, ed.correct)
  }

  /** `handleOptionChange`: only the option at `index` gets the new text. */
  function SingleChange(ed: SingleEditor, index: nat, text: string): (r: SingleEditor)
    requires index < |ed.options|
    ensures r.correct == ed.correct && Values(r.options) == Values(ed.options)
    ensures |r.options| == |ed.options| && r.options[index].caption == text
    ensures forall i :: 0 <= i < |ed.options| && i != index ==> r.options[i] == ed.options[i]
  {
    ed.(options := ChangeLabel(ed.options, index, text))
  }

  /** `getContent`: the options and the one correct letter. */
  function SingleGetContent(ed: SingleEditor): (c: Content)
    ensures c.options == ed.options
    ensures c.correct == Letters([ed.correct])
  {
    Content(ed.options, Letters([ed.correct]))
  }

  /** `setContent`: options when given; the first letter of a non-empty letter list. */
  function SingleSetContent(ed: SingleEditor, raw: RawContent): (r: SingleEditor)
    ensures raw.options.Some? ==> r.options == raw.options.value
    ensures raw.options.None? ==> r.options == ed.options
    ensures (raw.correct.Some? && raw.correct.value.Letters? && |raw.correct.value.letters| > 0) ==>
              r.correct == raw.correct.value.letters[0]
    ensures !(raw.correct.Some? && raw.correct.value.Letters? && |raw.correct.value.letters| > 0) ==>
              r.correct == ed.correct
  {
    var options := if raw.options.Some? then raw.options.value else ed.options;
    var correct :=
      if raw.correct.Some? && raw.correct.value.Letters? && |raw.correct.value.letters| > 0
      then raw.correct.value.letters[0] else ed.correct;
    SingleEditor(options, correct)
  }

  /** Loading what the editor produced gives the same editor back. */
  lemma SingleContentRoundTrip(ed: SingleEditor, other: SingleEditor)
    ensures var c := SingleGetContent(ed);
            SingleSetContent(other, RawContent(Some(c.options), Some(c.correct))) == ed
  {
  }

  /** Adding, removing and relabelling keep the single-choice invariant. */
  lemma SingleEditsKeepValid(ed: SingleEditor, index: nat, text: string)
    requires SingleValid(ed)
    requires index < |ed.options|
    ensures SingleAdd(ed).Ok? ==> SingleValid(SingleAdd(ed).value)
    ensures SingleValid(SingleRemove(ed, index))
    ensures SingleValid(SingleChange(ed, index, text))
  {
    var vs := Values(ed.options);
    var k :| 0 <= k < |vs| && vs[k] == ed.correct;
    if SingleAdd(ed).Ok? {
      assert Values(SingleAdd(ed).value.options)[k] == ed.correct;
    }
    var r := SingleRemove(ed, index);
    if |ed.options| > MinOptions {
      if ed.correct == ed.options[index].value {
        assert Values(r.options)[0] == r.correct;
      } else {
        assert k != index;
        var k' := if k < index then k else k - 1;
        assert Values(r.options)[k'] == ed.correct;
      }
    }
  }

  // ---------------------------------------------------------------------------
  // Multiple choice.

  datatype MultipleEditor = MultipleEditor(options: seq<Choice>, correct: seq<string>)

  function MultipleInit(): (ed: MultipleEditor)
    ensures CountInRange(ed.options) && |ed.correct| == 0
  {
    MultipleEditor(InitialOptions(), [])
  }

  /** `handleAddOption`: as in the single-choice editor; the marks stay. */
  function MultipleAdd(ed: MultipleEditor): (r: Result<MultipleEditor, string>)
    ensures r.Err? <==> |ed.options| >= MaxOptions
    ensures r.Err? ==> r.error == TooManyOptions
    ensures r.Ok? ==> r.value.correct == ed.correct
    ensures r.Ok? ==> r.value.options == ed.options + [Choice(Letter(|ed.options|), "")]
  {
    match AddOption(ed.options)
    case Err(e) => Err(e)
    case Ok(options) => Ok(ed.(options := options))
  }

  /** `handleRemoveOption`: ignored at two options or fewer; otherwise the option
      goes and its letter is no longer marked correct. */
  function MultipleRemove(ed: MultipleEditor, index: nat): (r: MultipleEditor)
    requires index < |ed.options|
    ensures |ed.options| <= MinOptions ==> r == ed
    ensures |ed.options| > MinOptions ==>
              r.options == RemoveAt(ed.options, index) && ed.options[index].value !in r.correct
    ensures |ed.options| > MinOptions ==>
              forall x :: x != ed.options[index].value ==> (x in r.correct <==> x in ed.correct)
    ensures forall x :: x in r.correct ==> x in ed.correct
  {
    if |ed.options| <= MinOptions then ed
    else MultipleEditor(RemoveAt(ed.options, index), Without(ed.correct, ed.options[index].value))
  }

  /** `handleOptionChange`: only the option at `index` gets the new text. */
  function MultipleChange(ed: MultipleEditor, index: nat, text: string): (r: MultipleEditor)
    requires index < |ed.options|
    ensures r.correct == ed.correct && Values(r.options) == Values(ed.options)
    ensures |r.options| == |ed.options| && r.options[index].caption == text
    ensures forall i :: 0 <= i < |ed.options| && i != index ==> r.options[i] == ed.options[i]
  {
    ed.(options := ChangeLabel(ed.options, index, text))
  }

  /** `handleCorrectAnswerChange`: checking appends the letter, unchecking
      removes every occurrence of it. */
  function ToggleCorrect(ed: MultipleEditor, value: string, checked: bool): (r: MultipleEditor)
    ensures r.options == ed.options
    ensures value in r.correct <==> checked
    ensures forall x :: x != value ==> (x in r.correct <==> x in ed.correct)
  {
    if checked then ed.(correct := ed.correct + [value])
    else ed.(correct := Without(ed.correct, value))
  }

  /** The positions of the options whose letter is marked, ascending: every
      such position once, and no other. */
  function MarkedIndices(options: seq<Choice>, correct: seq<string>): (idx: seq<nat>)
    ensures |idx| <= |options|
    ensures forall j :: 0 <= j < |idx| ==> idx[j] < |options| && options[idx[j]].value in correct
    ensures forall a, b :: 0 <= a < b < |idx| ==> idx[a] < idx[b]
    ensures forall i :: 0 <= i < |options| && options[i].value in correct ==> i in idx
  {
    if |options| == 0 then []
    else
      var n := |options| - 1;
      var before := MarkedIndices(options[..n], correct);
      assert forall k :: 0 <= k < n ==> options[..n][k] == options[k];
      if options[n].value in correct then before + [n] else before
  }

  /** `options.filter(o => correct.includes(o.value)).map(o => o.value)`: the
      letters of the marked options, in option order and with an option's
      letter repeated when two options share it. */
  function MarkedLetters(options: seq<Choice>, correct: seq<string>): (r: seq<string>)
    ensures |r| <= |options|
    ensures |r| == |MarkedIndices(options, correct)|
    ensures forall j :: 0 <= j < |r| ==> r[j] == options[MarkedIndices(options, correct)[j]].value
    ensures forall x :: x in r <==> x in correct && x in Values(options)
  {
    var idx := MarkedIndices(options, correct);
    var r := seq(|idx|, j requires 0 <= j < |idx| => options[idx[j]].value);
    MarkedMembers(options, correct, r);
    r
  }

  /** The letters picked through `MarkedIndices` are exactly the marked option letters. */
  lemma MarkedMembers(options: seq<Choice>, correct: seq<string>, r: seq<string>)
    requires |r| == |MarkedIndices(options, correct)|
    requires forall j :: 0 <= j < |r| ==> r[j] == options[MarkedIndices(options, correct)[j]].value
    ensures forall x :: x in r <==> x in correct && x in Values(options)
  {
    var idx := MarkedIndices(options, correct);
    var vs := Values(options);
    forall x | x in r ensures x in correct && x in vs {
      var j :| 0 <= j < |r| && r[j] == x;
      assert vs[idx[j]] == x;
    }
    forall x | x in correct && x in vs ensures x in r {
      var i :| 0 <= i < |vs| && vs[i] == x;
      assert i in idx;
      var j :| 0 <= j < |idx| && idx[j] == i;
      assert r[j] == x;
    }
  }

  /** `getContent`: the options, and the letters of the options marked correct
      in the order the options appear. */
  function MultipleGetContent(ed: MultipleEditor): (c: Content)
    ensures c.options == ed.options
    ensures c.correct.Letters?
    ensures forall x :: x in c.correct.letters <==> x in ed.correct && x in Values(ed.options)
    ensures |c.correct.letters| == |MarkedIndices(ed.options, ed.correct)|
    ensures forall j :: 0 <= j < |c.correct.letters| ==>
              c.correct.letters[j] == ed.options[MarkedIndices(ed.options, ed.correct)[j]].value
  {
    Content(ed.options, Letters(MarkedLetters(ed.options, ed.correct)))
  }

  /** `setContent`: options when given; any letter list, even an empty one. */
  function MultipleSetContent(ed: MultipleEditor, raw: RawContent): (r: MultipleEditor)
    ensures raw.options.Some? ==> r.options == raw.options.value
    ensures raw.options.None? ==> r.options == ed.options
    ensures (raw.correct.Some? && raw.correct.value.Letters?) ==> r.correct == raw.correct.value.letters
    ensures !(raw.correct.Some? && raw.correct.value.Letters?) ==> r.correct == ed.correct
  {
    var options := if raw.options.Some? then raw.options.value else ed.options;
    var correct := if raw.correct.Some? && raw.correct.value.Letters? then raw.correct.value.letters else ed.correct;
    MultipleEditor(options, correct)
  }

  /** Toggling a letter on and then off leaves no trace of it, whatever was marked before. */
  lemma ToggleOnOff(ed: MultipleEditor, value: string)
    ensures ToggleCorrect(ToggleCorrect(ed, value, true), value, false).correct == Without(ed.correct, value)
  {
    WithoutAppend(ed.correct, value);
  }

  /** Loading what the editor produced and reading it again gives the same content. */
  lemma MultipleContentRoundTrip(ed: MultipleEditor, other: MultipleEditor)
    ensures var c := MultipleGetContent(ed);
            MultipleGetContent(MultipleSetContent(other, RawContent(Some(c.options), Some(c.correct)))) == c
  {
    MarkedIdempotent(ed.options, ed.correct);
  }

  lemma {:induction false} MarkedIdempotent(options: seq<Choice>, correct: seq<string>)
    ensures MarkedLetters(options, MarkedLetters(options, correct)) == MarkedLetters(options, correct)
  {
    var m := MarkedLetters(options, correct);
    MarkedSame(options, m, correct);
  }

  /** Two letter lists that agree on the options' letters mark the same options. */
  lemma MarkedSame(options: seq<Choice>, a: seq<string>, b: seq<string>)
    requires forall x :: x in Values(options) ==> (x in a <==> x in b)
    ensures MarkedLetters(options, a) == MarkedLetters(options, b)
  {
    MarkedIndicesSame(options, a, b);
  }

  lemma {:induction false} MarkedIndicesSame(options: seq<Choice>, a: seq<string>, b: seq<string>)
    requires forall i :: 0 <= i < |options| ==> (options[i].value in a <==> options[i].value in b)
    ensures MarkedIndices(options, a) == MarkedIndices(options, b)
  {
    if |options| > 0 {
      var n := |options| - 1;
      assert forall k :: 0 <= k < n ==> options[..n][k] == options[k];
      MarkedIndicesSame(options[..n], a, b);
    }
  }

  /** Adding, removing and relabelling keep two to eight options. */
  lemma MultipleEditsKeepCount(ed: MultipleEditor, index: nat, text: string)
    requires CountInRange(ed.options)
    requires index < |ed.options|
    ensures MultipleAdd(ed).Ok? ==> CountInRange(MultipleAdd(ed).value.options)
    ensures CountInRange(MultipleRemove(ed, index).options)
    ensures CountInRange(MultipleChange(ed, index, text).options)
  {
  }

  // ---------------------------------------------------------------------------
  // New letters come from the option count, so a removal followed by an
  // addition can repeat a letter.

  /** From A, B, C: removing B and adding an option gives A, C, C. */
  lemma AddAfterRemoveRepeatsLetter()
    ensures var ed := SingleRemove(SingleInit(), 1);
            var r := SingleAdd(ed);
            r.Ok? && Values(r.value.options) == ["A", "C", "C"] && !DistinctValues(r.value.options)
  {
    var ed := SingleRemove(SingleInit(), 1);
    assert ed.options == [Choice("A", ""), Choice("C", "")];
    assert Letter(2) == "C";
    var added := SingleAdd(ed).value.options;
    assert added == [Choice("A", ""), Choice("C", ""), Choice("C", "")];
    assert Values(added) == ["A", "C", "C"];
    assert added[1].value == added[2].value;
  }

  /** Every option carries the letter of its position: the state reached by
      adding and relabelling only. */
  predicate Positional(options: seq<Choice>) {
    |options| <= MaxOptions && forall i :: 0 <= i < |options| ==> options[i].value == Letter(i)
  }

  /** Positional letters are distinct. */
  lemma PositionalDistinct(options: seq<Choice>)
    requires Positional(options)
    ensures DistinctValues(options)
  {
    forall i, j | 0 <= i < j < |options| ensures options[i].value != options[j].value {
      LetterInjective(i, j);
    }
  }

  /** Adding and relabelling keep letters positional, and so distinct. */
  lemma AddKeepsPositional(options: seq<Choice>, index: nat, text: string)
    requires Positional(options)
    requires index < |options|
    ensures AddOption(options).Ok? ==> Positional(AddOption(options).value)
    ensures Positional(ChangeLabel(options, index, text))
    ensures InitialOptions() == [Choice(Letter(0), ""), Choice(Letter(1), ""), Choice(Letter(2), "")]
  {
  }

  /** From a list with distinct letters, an addition keeps them distinct exactly
      when the positional letter is not already taken. */
  lemma AddDistinctIff(options: seq<Choice>)
    requires DistinctValues(options)
    requires |options| < MaxOptions
    ensures DistinctValues(AddOption(options).value) <==> Letter(|options|) !in Values(options)
  {
    var r := AddOption(options).value;
    if Letter(|options|) in Values(options) {
      var k :| 0 <= k < |options| && Values(options)[k] == Letter(|options|);
      assert r[k].value == r[|options|].value;
    } else {
      forall i, j | 0 <= i < j < |r| ensures r[i].value != r[j].value {
        if j == |options| {
          assert Values(options)[i] == r[i].value;
        }
      }
    }
  }

  /** Removing an option keeps the letters distinct. */
  lemma RemoveKeepsDistinct(options: seq<Choice>, index: nat)
    requires DistinctValues(options)
    requires index < |options|
    ensures DistinctValues(RemoveAt(options, index))
  {
    var r := RemoveAt(options, index);
    forall i, j | 0 <= i < j < |r| ensures r[i].value != r[j].value {
      var i' := if i < index then i else i + 1;
      var j' := if j < index then j else j + 1;
      assert r[i] == options[i'] && r[j] == options[j'];
    }
  }
}
