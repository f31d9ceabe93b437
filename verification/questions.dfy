/** Question generation: pick a country and a question kind, collect four
    distinct answer options that include the correct one, shuffle them. */
module Questions {
  import opened Outcomes
  import opened Randomness
  import opened Sequences
  import opened Catalog
  import opened Shuffling

  /** The number of options every question shows. */
  const OptionCount: nat := 4

  /** A capital question asks for the capital of a named country; a flag
      question asks which country a flag belongs to. */
  datatype Kind = CapitalQuestion | FlagQuestion

  /** What the prompt is about; the fixed wording around it is left out. */
  datatype Prompt = CapitalOf(countryName: string) | CountryOfFlag

  datatype Question = Question(
    kind: Kind,
    prompt: Prompt,
    correctAnswer: string,
    options: seq<string>,
    flag: string)

  /** The field a question of this kind asks about (and draws options from). */
  function Field(c: Country, kind: Kind): string {
    match kind
    case CapitalQuestion => c.capital
    case FlagQuestion => c.name
  }

  /** Every value an option of this kind can take, one per pool entry. */
  function Values(pool: seq<Country>, kind: Kind): (vs: seq<string>)
    ensures |vs| == |pool|
    ensures forall k :: 0 <= k < |pool| ==> vs[k] == Field(pool[k], kind)
  {
    seq(|pool|, k requires 0 <= k < |pool| => Field(pool[k], kind))
  }

  /** The option list while it is being collected: it starts with the
      correct answer, holds no duplicate and never exceeds four entries. */
  predicate Collecting(options: seq<string>, correct: string) {
    0 < |options| <= OptionCount && options[0] == correct && Distinct(options)
  }

  /** A finished option list. */
  predicate Complete(options: seq<string>, correct: string) {
    |options| == OptionCount && Distinct(options) && correct in options
  }

  /** Every option is the correct answer or a value some pool entry has. */
  predicate FromPool(options: seq<string>, correct: string, pool: seq<Country>, kind: Kind) {
    forall o :: o in options ==> o == correct || o in Values(pool, kind)
  }

  /** `getRandomOption`: the field of a uniformly drawn pool entry. It
      consumes one random value and fails on an empty pool. */
  function RandomOption(pool: seq<Country>, kind: Kind, rs: Stream): (r: Result<Drawn<string>>)
    requires Valid(rs)
    ensures |rs| == 0 ==> r == Err(RandomnessExhausted)
    ensures |rs| > 0 && |pool| == 0 ==> r == Err(EmptyPool)
    ensures |rs| > 0 && |pool| > 0 ==> r.Ok?
    ensures r.Ok? ==> r.value.got in Values(pool, kind) && r.value.rest == rs[1..]
  {
    if |rs| == 0 then Err(RandomnessExhausted)
    else
      var k := ScaledIndex(rs[0], |pool|);
      if |pool| == 0 then Err(EmptyPool)
      else
        assert Values(pool, kind)[k] == Field(pool[k], kind);
        Ok(Drawn(Field(pool[k], kind), rs[1..]))
  }

  /** The `while (options.length < 4)` loop of `getRandomOptions`: draw an
      option, keep it when it is new and not the correct answer. The loop
      invariant is `Collecting`; when the loop finishes the list is
      complete, extends the one it started from and holds nothing the pool
      could not supply. Running out of random values stands for a loop
      that has not finished yet. */
  function CollectOptions(pool: seq<Country>, kind: Kind, correct: string,
                          options: seq<string>, rs: Stream): (r: Result<Drawn<seq<string>>>)
    requires Valid(rs) && Collecting(options, correct)
    ensures r.Ok? ==> Collecting(r.value.got, correct) && Complete(r.value.got, correct)
    ensures r.Ok? ==> options <= r.value.got
    ensures r.Ok? && FromPool(options, correct, pool, kind) ==> FromPool(r.value.got, correct, pool, kind)
    ensures r.Ok? ==> SuffixOf(r.value.rest, rs)
    decreases |rs|
  {
    if |options| >= OptionCount then Ok(Drawn(options, rs))
    else
      match RandomOption(pool, kind, rs)
      case Err(e) => Err(e)
      case Ok(Drawn(candidate, rest)) =>
        ValidTail(rs);
        var next := if candidate !in options && candidate != correct then options + [candidate] else options;
        var r := CollectOptions(pool, kind, correct, next, rest);
        if r.Ok? then SuffixTail(r.value.rest, rs); r else r
  }

  /** `getRandomOptions`: collect from `[correct]`, then shuffle. */
  function RandomOptions(pool: seq<Country>, correct: string, kind: Kind, rs: Stream): (r: Result<Drawn<seq<string>>>)
    requires Valid(rs)
    ensures r.Ok? ==> Complete(r.value.got, correct)
    ensures r.Ok? ==> FromPool(r.value.got, correct, pool, kind)
    ensures r.Ok? ==> SuffixOf(r.value.rest, rs)
  {
    match CollectOptions(pool, kind, correct, [correct], rs)
    case Err(e) => Err(e)
    case Ok(Drawn(options, rest)) =>
      ValidSuffix(rest, rs);
      var r := Shuffle(options, rest);
      if r.Ok? then
        var shuffled := r.value.got;
        SuffixTrans(r.value.rest, rest, rs);
        assert correct in multiset(options);
        assert correct in multiset(shuffled);
        assert forall o :: o in shuffled ==> o in options by {
          forall o | o in shuffled
            ensures o in options
          {
            assert o in multiset(shuffled);
          }
        }
        r
      else r
  }

  /** A question as the source builds it: the correct answer is the
      country's field for the kind, the prompt names the country only for
      capital questions, the flag is attached to both kinds. */
  predicate Describes(q: Question, c: Country, kind: Kind) {
    && q.kind == kind
    && q.correctAnswer == Field(c, kind)
    && q.flag == c.flag
    && q.prompt == (if kind == CapitalQuestion then CapitalOf(c.name) else CountryOfFlag)
  }

  /** A question a player can answer: four distinct options, one of them right. */
  predicate WellFormedQuestion(q: Question) {
    Complete(q.options, q.correctAnswer)
  }

  /** `generateCapitalQuestion` and `generateFlagQuestion`. */
  function GenerateQuestion(pool: seq<Country>, c: Country, kind: Kind, rs: Stream): (r: Result<Drawn<Question>>)
    requires Valid(rs)
    ensures r.Ok? ==> Describes(r.value.got, c, kind) && WellFormedQuestion(r.value.got)
    ensures r.Ok? ==> FromPool(r.value.got.options, Field(c, kind), pool, kind)
    ensures r.Ok? ==> SuffixOf(r.value.rest, rs)
  {
    var correct := Field(c, kind);
    match RandomOptions(pool, correct, kind, rs)
    case Err(e) => Err(e)
    case Ok(Drawn(options, rest)) =>
      var prompt := if kind == CapitalQuestion then CapitalOf(c.name) else CountryOfFlag;
      Ok(Drawn(Question(kind, prompt, correct, options, c.flag), rest))
  }

  /** `getRandomQuestion`: one random value picks the country, the next
      picks the kind (capital when below one half). On an empty pool the
      source reads a field of `undefined` and throws. */
  function RandomQuestion(pool: seq<Country>, rs: Stream): (r: Result<Drawn<Question>>)
    requires Valid(rs)
    ensures |rs| >= 2 && |pool| == 0 ==> r == Err(EmptyPool)
    ensures r.Ok? ==> |pool| > 0 && |rs| >= 2
    ensures r.Ok? ==> exists k :: 0 <= k < |pool| && Describes(r.value.got, pool[k], r.value.got.kind)
    ensures r.Ok? ==> Describes(r.value.got, pool[ScaledIndex(rs[0], |pool|)], r.value.got.kind)
    ensures r.Ok? ==> r.value.got.kind == (if Coin(rs[1]) then CapitalQuestion else FlagQuestion)
    ensures r.Ok? ==> WellFormedQuestion(r.value.got)
    ensures r.Ok? ==> forall o :: o in r.value.got.options ==> o in Values(pool, r.value.got.kind)
    ensures r.Ok? ==> SuffixOf(r.value.rest, rs)
  {
    if |rs| < 2 then Err(RandomnessExhausted)
    else
      var k := ScaledIndex(rs[0], |pool|);
      var kind := if Coin(rs[1]) then CapitalQuestion else FlagQuestion;
      if |pool| == 0 then Err(EmptyPool)
      else
        assert Valid(rs[2..]) by { ValidTail(rs); ValidTail(rs[1..]); assert rs[1..][1..] == rs[2..]; }
        var r := GenerateQuestion(pool, pool[k], kind, rs[2..]);
        if r.Ok? then
          assert Values(pool, kind)[k] == Field(pool[k], kind);
          assert Describes(r.value.got, pool[k], kind);
          r
        else r
  }

  /** The option loop cannot finish when the pool does not offer enough
      distinct values: if the correct answer and every value of the kind
      together make fewer than four strings, no supply of random values is
      ever enough (the source spins forever). */
  lemma {:induction false} TooFewValuesNeverComplete(pool: seq<Country>, kind: Kind, correct: string,
                                                     options: seq<string>, rs: Stream)
    requires Valid(rs) && Collecting(options, correct)
    requires FromPool(options, correct, pool, kind)
    requires |Elements(Values(pool, kind)) + {correct}| < OptionCount
    ensures CollectOptions(pool, kind, correct, options, rs).Err?
    decreases |rs|
  {
    var reach := Elements(Values(pool, kind)) + {correct};
    DistinctWithin(options, reach);
    if |rs| > 0 && |pool| > 0 {
      var candidate := RandomOption(pool, kind, rs).value.got;
      ValidTail(rs);
      var next := if candidate !in options && candidate != correct then options + [candidate] else options;
      assert FromPool(next, correct, pool, kind);
      DistinctWithin(next, reach);
      TooFewValuesNeverComplete(pool, kind, correct, next, rs[1..]);
    }
  }

  /** When the pool offers exactly four values of the kind, the correct
      answer among them, every completed question shows all four. */
  lemma OptionsExhaustFourValues(pool: seq<Country>, c: Country, kind: Kind, rs: Stream)
    requires Valid(rs)
    requires Field(c, kind) in Values(pool, kind)
    requires |Elements(Values(pool, kind))| == OptionCount
    ensures GenerateQuestion(pool, c, kind, rs).Ok? ==>
      Elements(GenerateQuestion(pool, c, kind, rs).value.got.options) == Elements(Values(pool, kind))
  {
    var r := GenerateQuestion(pool, c, kind, rs);
    if r.Ok? {
      var options := r.value.got.options;
      DistinctCardinality(options);
      SubsetOfSameSize(Elements(options), Elements(Values(pool, kind)));
    }
  }

  /** An example pool of four countries. */
  function ExamplePool(): seq<Country> {
    [Country("Canada", "url1", "Ottawa"), Country("Peru", "url2", "Lima"),
     Country("Sweden", "url3", "Stockholm"), Country("Brazil", "url4", "Brasilia")]
  }

  /** The example pool offers four distinct capitals. */
  lemma ExampleCapitals()
    ensures Elements(Values(ExamplePool(), CapitalQuestion)) == {"Ottawa", "Lima", "Stockholm", "Brasilia"}
    ensures |Elements(Values(ExamplePool(), CapitalQuestion))| == OptionCount
  {
    var vs := Values(ExamplePool(), CapitalQuestion);
    assert vs == ExampleCapitalList();
    ExampleCapitalsDistinct();
    DistinctCardinality(vs);
  }

  /** On an example pool, a capital question about Canada offers exactly
      the four capitals, in some order, with Ottawa correct. */
  lemma CanadaCapitalExample(rs: Stream)
    requires Valid(rs)
    ensures GenerateQuestion(ExamplePool(), ExamplePool()[0], CapitalQuestion, rs).Ok? ==>
      && GenerateQuestion(ExamplePool(), ExamplePool()[0], CapitalQuestion, rs).value.got.correctAnswer == "Ottawa"
      && Elements(GenerateQuestion(ExamplePool(), ExamplePool()[0], CapitalQuestion, rs).value.got.options)
         == {"Ottawa", "Lima", "Stockholm", "Brasilia"}
  {
    var pool := ExamplePool();
    ExampleCapitals();
    assert Values(pool, CapitalQuestion)[0] == "Ottawa";
    OptionsExhaustFourValues(pool, pool[0], CapitalQuestion, rs);
  }

  /** Random values that make the example pool produce a question: Canada,
      a capital question, then Lima, Stockholm and Brasilia as wrong
      options, then a shuffle that always swaps with position 0. */
  function ExampleStream(): (rs: Stream)
    ensures Valid(rs) && |rs| == 8
  {
    var xs := [0.1, 0.2, 0.3, 0.6, 0.9, 0.0, 0.0, 0.0];
    assert forall i :: 0 <= i < |xs| ==> xs[i] in {0.1, 0.2, 0.3, 0.6, 0.9, 0.0};
    xs
  }

  /** What is left of `ExampleStream` after `n` values were used. */
  function ExampleTail(n: nat): (rs: Stream)
    requires n <= 8
    ensures Valid(rs) && |rs| == 8 - n
  {
    ValidSuffix(ExampleStream()[n..], ExampleStream());
    ExampleStream()[n..]
  }

  /** Using one more value of `ExampleStream`. */
  lemma ExampleTailStep(n: nat)
    requires n < 8
    ensures ExampleTail(n)[0] == ExampleStream()[n] && ExampleTail(n)[1..] == ExampleTail(n + 1)
  {
  }

  /** The question `ExampleStream` yields on the example pool. */
  function CanadaQuestion(): Question {
    Question(CapitalQuestion, CapitalOf("Canada"), "Ottawa", ["Lima", "Stockholm", "Brasilia", "Ottawa"], "url1")
  }

  /** One pass of the option loop: the value drawn from the next random
      value is appended when it is new and not the correct answer, and
      dropped otherwise. */
  lemma CollectStep(pool: seq<Country>, kind: Kind, correct: string, options: seq<string>, rs: Stream)
    requires Collecting(options, correct) && |options| < OptionCount
    requires Valid(rs) && |rs| > 0 && |pool| > 0
    ensures Valid(rs[1..])
    ensures
      var v := Field(pool[ScaledIndex(rs[0], |pool|)], kind);
      var next := if v !in options && v != correct then options + [v] else options;
      && Collecting(next, correct)
      && CollectOptions(pool, kind, correct, options, rs) == CollectOptions(pool, kind, correct, next, rs[1..])
  {
    ValidTail(rs);
  }

  /** The example pool's capitals, in pool order. */
  function ExampleCapitalList(): seq<string> {
    ["Ottawa", "Lima", "Stockholm", "Brasilia"]
  }

  /** Distinct initials make the example's capitals distinct. */
  lemma ExampleCapitalsDistinct()
    ensures Distinct(ExampleCapitalList())
  {
    var all := ExampleCapitalList();
    var initials := [all[0][0], all[1][0], all[2][0], all[3][0]];
    assert initials == ['O', 'L', 'S', 'B'];
    forall i, j | 0 <= i < j < 4
      ensures all[i] != all[j]
    {
      assert all[i][0] == initials[i] && all[j][0] == initials[j];
    }
  }

  /** The first `m` capitals are a list being collected for "Ottawa", and
      the next capital is new to it. */
  lemma ExamplePrefix(m: nat)
    requires 0 < m < 4
    ensures Collecting(ExampleCapitalList()[..m], "Ottawa")
    ensures ExampleCapitalList()[m] !in ExampleCapitalList()[..m] && ExampleCapitalList()[m] != "Ottawa"
    ensures ExampleCapitalList()[..m] + [ExampleCapitalList()[m]] == ExampleCapitalList()[..m + 1]
  {
    var all := ExampleCapitalList();
    ExampleCapitalsDistinct();
    assert all[..m + 1] == all[..m] + [all[m]];
    assert all[m] == all[..m + 1][m];
  }

  /** Value `m + 1` of `ExampleStream` draws the `m`-th capital. */
  lemma ExampleDraw(m: nat)
    requires 0 < m < 4
    ensures Field(ExamplePool()[ScaledIndex(ExampleTail(m + 1)[0], 4)], CapitalQuestion) == ExampleCapitalList()[m]
  {
    ExampleTailStep(m + 1);
    if m == 1 {
      assert ScaledIndex(0.3, 4) == 1;
    } else if m == 2 {
      assert ScaledIndex(0.6, 4) == 2;
    } else {
      assert ScaledIndex(0.9, 4) == 3;
    }
  }

  /** One pass of the loop on the example: the `m`-th capital is added. */
  lemma ExampleCollectOne(m: nat)
    requires 0 < m < 4
    ensures Collecting(ExampleCapitalList()[..m], "Ottawa") && Collecting(ExampleCapitalList()[..m + 1], "Ottawa")
    ensures CollectOptions(ExamplePool(), CapitalQuestion, "Ottawa", ExampleCapitalList()[..m], ExampleTail(m + 1))
      == CollectOptions(ExamplePool(), CapitalQuestion, "Ottawa", ExampleCapitalList()[..m + 1], ExampleTail(m + 2))
  {
    ExamplePrefix(m);
    ExampleDraw(m);
    ExampleTailStep(m + 1);
    CollectStep(ExamplePool(), CapitalQuestion, "Ottawa", ExampleCapitalList()[..m], ExampleTail(m + 1));
  }

  /** From `m` collected capitals on, the loop adds the remaining ones in
      pool order and stops with the value after the last draw. */
  lemma {:induction false} ExampleCollectFrom(m: nat)
    requires 0 < m <= 4
    ensures CollectOptions(ExamplePool(), CapitalQuestion, "Ottawa", ExampleCapitalList()[..m], ExampleTail(m + 1))
      == Ok(Drawn(ExampleCapitalList(), ExampleTail(5)))
    decreases 4 - m
  {
    var all := ExampleCapitalList();
    if m == 4 {
      assert all[..m] == all;
    } else {
      ExampleCollectOne(m);
      ExampleCollectFrom(m + 1);
    }
  }

  /** The option loop finishes after three draws, each a new capital. */
  lemma ExampleOptionsCollected()
    ensures CollectOptions(ExamplePool(), CapitalQuestion, "Ottawa", ["Ottawa"], ExampleTail(2))
      == Ok(Drawn(["Ottawa", "Lima", "Stockholm", "Brasilia"], ExampleTail(5)))
  {
    var all := ExampleCapitalList();
    ExampleCollectFrom(1);
    assert all[..1] == [all[0]];
  }

  /** Three swaps with position 0 rotate the list left by one. */
  lemma ExampleShuffled()
    ensures Shuffle(["Ottawa", "Lima", "Stockholm", "Brasilia"], ExampleTail(5))
      == Ok(Drawn(["Lima", "Stockholm", "Brasilia", "Ottawa"], ExampleTail(8)))
  {
    var a0 := ["Ottawa", "Lima", "Stockholm", "Brasilia"];
    var a1, a2, a3 := Swap(a0, 3, 0), Swap(Swap(a0, 3, 0), 2, 0), Swap(Swap(Swap(a0, 3, 0), 2, 0), 1, 0);
    ExampleTailStep(5);
    ExampleTailStep(6);
    ExampleTailStep(7);
    assert SwapPartner(0.0, 3) == 0 && SwapPartner(0.0, 2) == 0 && SwapPartner(0.0, 1) == 0;
    ShuffleStep(a0, 3, ExampleTail(5));
    ShuffleStep(a1, 2, ExampleTail(6));
    ShuffleStep(a2, 1, ExampleTail(7));
    assert a3 == ["Lima", "Stockholm", "Brasilia", "Ottawa"];
  }

  /** `getRandomOptions` on the example: collect, then rotate. */
  lemma ExampleOptions()
    ensures RandomOptions(ExamplePool(), "Ottawa", CapitalQuestion, ExampleTail(2))
      == Ok(Drawn(["Lima", "Stockholm", "Brasilia", "Ottawa"], ExampleTail(8)))
  {
    ExampleOptionsCollected();
    ExampleShuffled();
  }

  /** Questions are produced: on the example pool, the values after the
      first two yield a capital question about Canada. */
  lemma CanadaQuestionGenerated()
    ensures GenerateQuestion(ExamplePool(), ExamplePool()[0], CapitalQuestion, ExampleTail(2))
      == Ok(Drawn(CanadaQuestion(), ExampleTail(8)))
  {
    ExampleOptions();
  }

  /** One unfolding of `RandomQuestion` on a non-empty pool: the question
      is generated from the values after the first two. */
  lemma RandomQuestionStep(pool: seq<Country>, rs: Stream, k: nat, kind: Kind)
    requires Valid(rs) && |rs| >= 2 && Valid(rs[2..]) && 0 < |pool|
    requires k == ScaledIndex(rs[0], |pool|)
    requires kind == (if Coin(rs[1]) then CapitalQuestion else FlagQuestion)
    ensures RandomQuestion(pool, rs) == GenerateQuestion(pool, pool[k], kind, rs[2..])
  {
  }

  /** `getRandomQuestion` on the example pool picks Canada and a capital
      question, and uses up every value of `ExampleStream`. */
  lemma CanadaQuestionDrawn()
    ensures RandomQuestion(ExamplePool(), ExampleStream()) == Ok(Drawn(CanadaQuestion(), []))
  {
    var pool, rs := ExamplePool(), ExampleStream();
    assert rs[0] == 0.1 && rs[1] == 0.2;
    assert ScaledIndex(0.1, 4) == 0;
    assert Coin(0.2);
    assert rs[2..] == ExampleTail(2);
    RandomQuestionStep(pool, rs, 0, CapitalQuestion);
    CanadaQuestionGenerated();
    assert ExampleTail(8) == [];
  }
}
