/**
 The table the leakage analysis writes for one prediction file: every
 predicted address of a name with at most three tokens and a known true
 address becomes a row, the correct predictions first, each with the pattern
 that derives the true address from the name. The pickled tables are
 parameters; the file itself is not modelled.
 */
module Report {

  import opened Wrappers
  import opened Text
  import opened Dicts
  import opened Patterns

  /** The CSV file the rows for `filename` go to: its last path component
      with the final four characters (the `.pkl`) cut off, under `results/`. */
  function CsvPath(filename: string): (p: string)
    ensures HasPrefix(p, "results/") && |p| >= 12
    ensures '/' !in p[8..]
    ensures p[|p| - 4..] == ".csv"
  {
    var base := LastPiece(filename, '/');
    "results/" + base[..if |base| < 4 then 0 else |base| - 4] + ".csv"
  }

  /** Whatever the directories, a file whose last component is `stem.pkl`
      gets `results/stem.csv`. */
  lemma CsvPathOfLastPiece(filename: string, stem: string)
    requires LastPiece(filename, '/') == stem + ".pkl"
    ensures CsvPath(filename) == "results/" + stem + ".csv"
  {
    assert (stem + ".pkl")[..|stem|] == stem;
  }

  /** A prediction file named `stem.pkl` in any directory gets `results/stem.csv`. */
  lemma CsvPathOfPickle(dir: string, stem: string)
    requires '/' !in stem
    ensures CsvPath(dir + "/" + stem + ".pkl") == "results/" + stem + ".csv"
  {
    assert dir + "/" + stem + ".pkl" == dir + ['/'] + (stem + ".pkl");
    AfterLast(dir, stem + ".pkl", '/');
    CsvPathOfLastPiece(dir + "/" + stem + ".pkl", stem);
  }

  /** The tables the analysis reads besides the predictions. */
  datatype Tables<S> = Tables(
    name2email: map<string, string>,   // the true address of each name
    emailFreq: map<string, int>,       // how often each address occurs in the corpus
    supports: Option<map<string, S>>   // the support column, when a support file is given
  )

  /** One row of the table. */
  datatype Row<S> = Row(
    name: string,
    email: string,
    prediction: string,
    mark: int,             // the Label column: 1 for a correct prediction, 0 otherwise
    pattern: Label,
    frequency: int,
    support: Option<S>     // present exactly when a support file is given
  )

  /** The header, which always names the support column. */
  const Fields: seq<string> := ["Name", "Email", "Prediction", "Label", "Pattern_type", "Frequency", "Support"]

  /** A name the analysis skips: more than three tokens or no true address. */
  predicate Considered<S>(t: Tables<S>, name: string) {
    |Tokens(name)| <= 3 && name in t.name2email
  }

  /** The lookups a row for `email` makes, in order: the frequency, then the
      support when there is a support file. */
  function Extras<S>(t: Tables<S>, email: string): (r: Result<(int, Option<S>), PyError>)
    ensures r.Success? <==> email in t.emailFreq && (t.supports.None? || email in t.supports.value)
    ensures r.Failure? ==> r.error == KeyError(email)
  {
    if email !in t.emailFreq then Failure(KeyError(email))
    else match t.supports
      case None => Success((t.emailFreq[email], None))
      case Some(sup) =>
        if email !in sup then Failure(KeyError(email))
        else Success((t.emailFreq[email], Some(sup[email])))
  }

  /** Every lookup one considered entry needs succeeds: the pattern, and the
      row's extras. */
  predicate EntryOk<S>(t: Tables<S>, name: string)
    requires Considered(t, name)
  {
    PatternType(name, t.name2email[name]).Success? && Extras(t, t.name2email[name]).Success?
  }

  /** A row describes a considered name: its true address, that address's
      frequency and support, and the pattern deriving the address from the
      name. */
  predicate Faithful<S(==)>(t: Tables<S>, row: Row<S>) {
    && Considered(t, row.name)
    && row.email == t.name2email[row.name]
    && PatternType(row.name, row.email) == Success(row.pattern)
    && row.email in t.emailFreq
    && row.frequency == t.emailFreq[row.email]
    && (match t.supports
        case None => row.support.None?
        case Some(sup) => row.email in sup && row.support == Some(sup[row.email]))
  }

  /** The entry `(name, pred)` raises nothing in the pass for `correct`: a
      considered name's pattern is computed, and its row's lookups are made
      when the prediction belongs to this pass. */
  predicate PassesEntry<S>(t: Tables<S>, name: string, pred: string, correct: bool) {
    Considered(t, name) ==>
      && PatternType(name, t.name2email[name]).Success?
      && ((pred == t.name2email[name]) == correct ==> Extras(t, t.name2email[name]).Success?)
  }

  /** A row of the pass for `correct`: faithful, with a prediction that is
      right exactly in the correct pass, and the matching label. */
  predicate PassRow<S(==)>(t: Tables<S>, row: Row<S>, correct: bool) {
    && Faithful(t, row)
    && (row.prediction == row.email <==> correct)
    && row.mark == (if correct then 1 else 0)
  }

  /** Whether the entry `(name, pred)` belongs to the pass for `correct`. */
  predicate InPass<S>(t: Tables<S>, name: string, pred: string, correct: bool) {
    Considered(t, name) && (pred == t.name2email[name]) == correct
  }

  /** The entries of the pass for `correct`, in their order in the predictions. */
  function InPassEntries<S>(t: Tables<S>, results: Dict<string, string>, correct: bool): (es: Dict<string, string>)
    ensures |es| == CountWhere(t, results, correct)
    ensures forall i | 0 <= i < |es| :: InPass(t, es[i].0, es[i].1, correct) && es[i] in results
  {
    if |results| == 0 then []
    else
      var rest := InPassEntries(t, results[1..], correct);
      assert forall e | e in rest :: e in results by {
        assert forall e | e in results[1..] :: e in results;
      }
      (if InPass(t, results[0].0, results[0].1, correct) then [results[0]] else []) + rest
  }

  /** The name and the prediction of each row. */
  function Described<S>(rows: seq<Row<S>>): (es: Dict<string, string>)
    ensures |es| == |rows|
    ensures forall i | 0 <= i < |rows| :: es[i] == (rows[i].name, rows[i].prediction)
  {
    seq(|rows|, i requires 0 <= i < |rows| => (rows[i].name, rows[i].prediction))
  }

  lemma DescribedConcat<S>(a: seq<Row<S>>, b: seq<Row<S>>)
    ensures Described(a + b) == Described(a) + Described(b)
  {
    assert forall i | 0 <= i < |a + b| :: Described(a + b)[i] == (Described(a) + Described(b))[i];
  }

  /** The pass's treatment of one entry: nothing for a skipped name; for a
      considered one, the pattern is computed first, then a row is made when
      the prediction belongs to this pass. */
  function PassEntry<S(==)>(t: Tables<S>, name: string, pred: string, correct: bool): (r: Result<seq<Row<S>>, PyError>)
    ensures r.Success? <==> PassesEntry(t, name, pred, correct)
    ensures r.Success? ==> |r.value| == (if InPass(t, name, pred, correct) then 1 else 0)
    ensures r.Success? ==> Described(r.value) == if InPass(t, name, pred, correct) then [(name, pred)] else []
    ensures r.Success? && |r.value| == 1 ==> PassRow(t, r.value[0], correct)
    ensures r.Failure? ==> r.error == IndexError || r.error.KeyError?
  {
    if !Considered(t, name) then Success([])
    else
      var email := t.name2email[name];
      match PatternType(name, email)
      case Failure(e) => Failure(e)
      case Success(pattern) =>
        if (pred == email) != correct then Success([])
        else match Extras(t, email)
          case Failure(e) => Failure(e)
          case Success(extras) =>
            Success([Row(name, email, pred, if correct then 1 else 0, pattern, extras.0, extras.1)])
  }

  /** One pass over the predictions: the rows for the correct predictions
      (`correct`) or for the wrong ones, or the first error raised. Every
      considered entry has its pattern computed, whichever pass it belongs to. */
  function Pass<S(==)>(t: Tables<S>, results: Dict<string, string>, correct: bool): (r: Result<seq<Row<S>>, PyError>)
    ensures r.Success? ==> forall i | 0 <= i < |r.value| :: PassRow(t, r.value[i], correct)
    ensures r.Success? ==> Described(r.value) == InPassEntries(t, results, correct)
    ensures r.Success? <==> forall i | 0 <= i < |results| :: PassesEntry(t, results[i].0, results[i].1, correct)
    ensures r.Failure? ==> r.error == IndexError || r.error.KeyError?
    decreases |results|
  {
    if |results| == 0 then Success([])
    else
      assert forall i | 1 <= i < |results| :: results[i] == results[1..][i - 1];
      match PassEntry(t, results[0].0, results[0].1, correct)
      case Failure(e) => Failure(e)
      case Success(rows) =>
        match Pass(t, results[1..], correct)
        case Failure(e) => Failure(e)
        case Success(more) =>
          DescribedConcat(rows, more);
          Success(rows + more)
  }

  /** How many considered entries predict their true address (`correct`) or
      do not. */
  function CountWhere<S>(t: Tables<S>, results: Dict<string, string>, correct: bool): (n: nat)
    ensures n <= CountConsidered(t, results)
  {
    if |results| == 0 then 0
    else
      (if InPass(t, results[0].0, results[0].1, correct) then 1 else 0) + CountWhere(t, results[1..], correct)
  }

  /** How many entries the analysis considers. */
  function CountConsidered<S>(t: Tables<S>, results: Dict<string, string>): nat {
    if |results| == 0 then 0
    else (if Considered(t, results[0].0) then 1 else 0) + CountConsidered(t, results[1..])
  }

  /** Every considered entry is either correct or not. */
  lemma {:induction false} CountsSplit<S>(t: Tables<S>, results: Dict<string, string>)
    ensures CountWhere(t, results, true) + CountWhere(t, results, false) == CountConsidered(t, results)
  {
    if |results| > 0 {
      CountsSplit(t, results[1..]);
    }
  }

  /** How many rows carry no pattern. */
  function CountNoPattern<S>(rows: seq<Row<S>>): (n: nat)
    ensures n <= |rows|
  {
    if |rows| == 0 then 0
    else (if rows[0].pattern == Z then 1 else 0) + CountNoPattern(rows[1..])
  }

  /** What the analysis produces for one prediction file. */
  datatype Analysis<S> = Analysis(
    path: string,
    header: seq<string>,
    rows: seq<Row<S>>,
    predicted: nat,    // considered entries
    correct: nat,      // rows with label 1
    nonPattern: nat    // label-1 rows whose pattern is `z`
  )

  /** `output_csv`: the correct rows, then the wrong ones, with the counts. */
  function OutputCsv<S(==)>(t: Tables<S>, filename: string, results: Dict<string, string>): (r: Result<Analysis<S>, PyError>)
    ensures r.Success? ==> r.value.path == CsvPath(filename) && r.value.header == Fields
    ensures r.Success? ==> r.value.nonPattern <= r.value.correct <= r.value.predicted
    ensures r.Success? ==> r.value.correct == CountWhere(t, results, true)
    ensures r.Success? ==>
      Described(r.value.rows) == InPassEntries(t, results, true) + InPassEntries(t, results, false)
    ensures r.Success? ==> |r.value.rows| == r.value.predicted == CountConsidered(t, results)
    ensures r.Success? ==> r.value.nonPattern == CountNoPattern(r.value.rows[..r.value.correct])
    ensures r.Success? ==> forall i | 0 <= i < |r.value.rows| ::
      r.value.rows[i].mark == (if i < r.value.correct then 1 else 0)
    ensures r.Success? ==> forall i | 0 <= i < |r.value.rows| :: (
      && Faithful(t, r.value.rows[i])
      && (r.value.rows[i].mark == 1 <==> r.value.rows[i].prediction == r.value.rows[i].email))
    ensures r.Success? <==> forall i | 0 <= i < |results| && Considered(t, results[i].0) :: EntryOk(t, results[i].0)
    ensures r.Failure? ==> r.error == IndexError || r.error.KeyError?
  {
    match Pass(t, results, true)
    case Failure(e) => Failure(e)
    case Success(right) =>
      match Pass(t, results, false)
      case Failure(e) => Failure(e)
      case Success(wrong) =>
        CountsSplit(t, results);
        assert forall i | 0 <= i < |results| && Considered(t, results[i].0) :: EntryOk(t, results[i].0) by {
          forall i | 0 <= i < |results| && Considered(t, results[i].0) ensures EntryOk(t, results[i].0) {
            assert PassesEntry(t, results[i].0, results[i].1, true);
            assert PassesEntry(t, results[i].0, results[i].1, false);
          }
        }
        var rows := right + wrong;
        DescribedConcat(right, wrong);
        assert rows[..|right|] == right;
        PassesJoined(t, right, wrong);
        Success(Analysis(CsvPath(filename), Fields, right + wrong,
                         CountConsidered(t, results), |right|, CountNoPattern(right)))
  }

  /** The correct pass's rows followed by the wrong pass's: labels 1 then 0,
      each row faithful, labelled 1 exactly when its prediction is right. */
  lemma PassesJoined<S>(t: Tables<S>, right: seq<Row<S>>, wrong: seq<Row<S>>)
    requires forall i | 0 <= i < |right| :: PassRow(t, right[i], true)
    requires forall i | 0 <= i < |wrong| :: PassRow(t, wrong[i], false)
    ensures forall i | 0 <= i < |right + wrong| ::
      (right + wrong)[i].mark == (if i < |right| then 1 else 0)
    ensures forall i | 0 <= i < |right + wrong| :: (
      && Faithful(t, (right + wrong)[i])
      && ((right + wrong)[i].mark == 1 <==> (right + wrong)[i].prediction == (right + wrong)[i].email))
  {
    var rows := right + wrong;
    forall i | 0 <= i < |rows|
      ensures rows[i].mark == (if i < |right| then 1 else 0)
      ensures Faithful(t, rows[i]) && (rows[i].mark == 1 <==> rows[i].prediction == rows[i].email)
    {
      if i < |right| {
        assert rows[i] == right[i];
      } else {
        assert rows[i] == wrong[i - |right|];
      }
    }
  }

  /** A considered name never gets the `l` label: it has at most three tokens. */
  lemma {:induction false} NoLongNames<S>(t: Tables<S>, filename: string, results: Dict<string, string>)
    requires OutputCsv(t, filename, results).Success?
    ensures forall i | 0 <= i < |OutputCsv(t, filename, results).value.rows| ::
      OutputCsv(t, filename, results).value.rows[i].pattern != L
  {
    var rows := OutputCsv(t, filename, results).value.rows;
    forall i | 0 <= i < |rows| ensures rows[i].pattern != L {
      assert Faithful(t, rows[i]);
      ShortNameNotLong(rows[i].name, rows[i].email);
    }
  }

  /** A name of at most three tokens is never classified `l`. */
  lemma ShortNameNotLong(name: string, email: string)
    requires |Tokens(name)| <= 3
    ensures PatternType(name, email) != Success(L)
  {
    TokensLower(name);
  }
}
