/**
 The experiment registry: a static table of experiment descriptors, read-only
 for the lifetime of the server, looked up by exact name.
 */
module Registry {

  import opened Wrappers
  import opened Host

  /** One experiment. Absent optional fields are the empty string. */
  datatype Experiment = Experiment(
    name: string,          // the directory name and the key of the table
    ref: string,           // the paper it reproduces (informational)
    code: string,          // the upstream repository (informational)
    entrypoint: string,    // a command appended to `docker run`, or ""
    artifactsPath: string  // a directory relative to the experiment, or ""
  )

  /** The table the server (`server/main.py`) is built with. */
  const Experiments: seq<Experiment> := [
    Experiment("analysing_pii_leakage", "https://arxiv.org/abs/2302.00539",
               "https://github.com/microsoft/analysing_pii_leakage", "hello.py", ""),
    Experiment("LM_PersonalInfoLeak", "https://arxiv.org/abs/2205.12628",
               "https://github.com/jeffhj/LM_PersonalInfoLeak", "python main.py", ""),
    Experiment("test", "https://arxiv.org/abs/2205.12628",
               "https://github.com/jeffhj/LM_PersonalInfoLeak", "", "results")
  ]

  /** The same experiments as the separate configuration module declares them,
      with the record's defaults (`entrypoint = ""`, `artifacts_path = ""`)
      filled in where a field is omitted. */
  const ConfiguredExperiments: seq<Experiment> := [
    Experiment("analysing_pii_leakage", "https://arxiv.org/abs/2302.00539",
               "https://github.com/microsoft/analysing_pii_leakage", "hello.py hello world 123", ""),
    Experiment("LM_PersonalInfoLeak", "https://arxiv.org/abs/2205.12628",
               "https://github.com/jeffhj/LM_PersonalInfoLeak", "main.py", ""),
    Experiment("test", "https://arxiv.org/abs/2205.12628",
               "https://github.com/jeffhj/LM_PersonalInfoLeak", "", "results")
  ]

  function NotFound(name: string): HttpError {
    HttpError(404, "Experiment '" + name + "' not found")
  }

  /** Entry `i` is the first one named `name`. */
  ghost predicate FirstNamed(reg: seq<Experiment>, i: int, name: string) {
    && 0 <= i < |reg|
    && reg[i].name == name
    && forall j | 0 <= j < i :: reg[j].name != name
  }

  /** The first entry whose name equals `name` exactly (case-sensitively), or a
      404 when there is none. */
  function Lookup(reg: seq<Experiment>, name: string): (r: Result<Experiment, HttpError>)
    ensures r.Success? <==> exists i | 0 <= i < |reg| :: reg[i].name == name
    ensures r.Success? ==> r.value.name == name
    ensures r.Success? ==> exists i | 0 <= i < |reg| :: FirstNamed(reg, i, name) && reg[i] == r.value
    ensures r.Failure? ==> r.error == NotFound(name)
  {
    if |reg| == 0 then Failure(NotFound(name))
    else if reg[0].name == name then Success(reg[0])
    else
      var r := Lookup(reg[1..], name);
      assert r.Success? ==> exists i | 0 <= i < |reg| :: FirstNamed(reg, i, name) && reg[i] == r.value by {
        if r.Success? {
          var i :| 0 <= i < |reg[1..]| && FirstNamed(reg[1..], i, name) && reg[1..][i] == r.value;
          assert FirstNamed(reg, i + 1, name);
        }
      }
      r
  }

  /** The names the listing endpoint reports, in table order. */
  function Names(reg: seq<Experiment>): (ns: seq<string>)
    ensures |ns| == |reg|
    ensures forall i | 0 <= i < |reg| :: ns[i] == reg[i].name
  {
    seq(|reg|, i requires 0 <= i < |reg| => reg[i].name)
  }

  /** Every listed name resolves, to an entry carrying that name. */
  lemma ListedNamesResolve(reg: seq<Experiment>)
    ensures forall i | 0 <= i < |reg| :: (Lookup(reg, Names(reg)[i]).Success?
      && Lookup(reg, Names(reg)[i]).value.name == Names(reg)[i])
  {
  }

  /** In the built-in tables, each name resolves to its own entry. */
  lemma TablesResolveToOwnEntry()
    ensures forall i | 0 <= i < |Experiments| :: Lookup(Experiments, Experiments[i].name) == Success(Experiments[i])
    ensures forall i | 0 <= i < |ConfiguredExperiments| ::
      Lookup(ConfiguredExperiments, ConfiguredExperiments[i].name) == Success(ConfiguredExperiments[i])
  {
  }

  /** The `test` entry: found by name, with artifacts under `results`. */
  lemma TestEntry()
    ensures Lookup(Experiments, "test").Success?
    ensures Lookup(Experiments, "test").value.artifactsPath == "results"
  {
    assert Lookup(Experiments, "test") == Success(Experiments[2]);
  }
}
