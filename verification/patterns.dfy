/**
 The email-pattern classifier of the leakage analysis: given a person's name
 and email address, which of thirty fixed patterns (if any) derives the
 address's local part from the name. Rules are tried in a fixed order and
 the first that produces the local part wins.
 */
module Patterns {

  import opened Wrappers
  import opened Text

  /** The numbers of the rules for two-token names. */
  type TwoTokenRule = i: int | 1 <= i <= 10 witness 1

  /** The numbers of the rules for three-token names. */
  type ThreeTokenRule = i: int | 1 <= i <= 17 witness 1

  /** `a1`: a one-token name; `b1`..`b10`: the rules for two tokens;
      `c1`..`c17`: the rules for three tokens; `l`: a longer name; `z`: no
      rule applies. */
  datatype Label = A1 | B(b: TwoTokenRule) | C(c: ThreeTokenRule) | L | Z

  /** The label as the analysis writes it into its table. */
  function LabelText(l: Label): (t: string)
    ensures |t| >= 1 && t[0] in {'a', 'b', 'c', 'l', 'z'}
    ensures t[0] == 'b' <==> l.B?
    ensures t[0] == 'c' <==> l.C?
    ensures l.B? ==> ParseInt(t[1..]) == Some(l.b)
    ensures l.C? ==> ParseInt(t[1..]) == Some(l.c)
    ensures l == A1 ==> t == "a1"
    ensures l == L ==> t == "l"
    ensures l == Z ==> t == "z"
    ensures l.B? ==> t == "b" + ShowNat(l.b)
    ensures l.C? ==> t == "c" + ShowNat(l.c)
  {
    match l
    case A1 => "a1"
    case B(i) =>
      ParseShowNat(i);
      "b" + ShowNat(i)
    case C(i) =>
      ParseShowNat(i);
      "c" + ShowNat(i)
    case L => "l"
    case Z => "z"
  }

  /** Distinct labels are written differently. */
  lemma LabelTextInjective(l1: Label, l2: Label)
    requires LabelText(l1) == LabelText(l2)
    ensures l1 == l2
  {
    if l1.B? || l1.C? {
      assert LabelText(l1)[1..] == LabelText(l2)[1..];
    }
  }

  /** The lower-cased part of the address before its first `@`; the whole
      address when it has none. */
  function LocalPart(email: string): (local: string)
    ensures '@' !in email ==> local == Lower(email)
  {
    if '@' !in email then
      SplitFree(email, '@');
      Lower(Before(email, '@'))
    else Lower(Before(email, '@'))
  }

  lemma LocalPartOf(user: string, domain: string)
    requires '@' !in user
    ensures LocalPart(user + "@" + domain) == Lower(user)
  {
    BeforeFirst(user, domain, '@');
  }

  /** The first character of a token, or an index error for an empty one. */
  function Initial(w: string): Option<string> {
    if w == "" then None else Some([w[0]])
  }

  /** A rule's candidate: `None` when computing it raises an index error. */
  type Candidate = Option<string>

  /** The candidates of rules `b1`..`b10` for the tokens `f` and `l`. */
  function TwoTokenRules(f: string, l: string): (cands: seq<Candidate>)
    requires f != "" && l != ""
    ensures |cands| == 10
    ensures forall i | 0 <= i < |cands| :: cands[i].Some?
  {
    var f0 := [f[0]];
    var l0 := [l[0]];
    [ Some(f + "." + l),    // b1: full name
      Some(f + "_" + l),    // b2
      Some(f + l),          // b3
      Some(f),              // b4: half name
      Some(l),              // b5
      Some(f0 + l),         // b6: initial + half name
      Some(f + l0),         // b7
      Some(l0 + f),         // b8
      Some(l + f0),         // b9
      Some(f0 + l0) ]       // b10: initials
  }

  /** The candidates of rules `c1`..`c17` for the tokens `f`, `m`, `l`; the
      middle token may have been stripped to nothing, and the rules taking its
      initial then raise. */
  function ThreeTokenRules(f: string, m: string, l: string): (cands: seq<Candidate>)
    requires f != "" && l != ""
    ensures |cands| == 17
    ensures forall i | 0 <= i < |cands| :: cands[i].None? <==> m == "" && i in {12, 14, 16}
  {
    var f0 := [f[0]];
    var l0 := [l[0]];
    var m0 := Initial(m);
    [ Some(f + "." + l),                                  // c1: full name
      Some(f + "_" + l),                                  // c2
      Some(f + l),                                        // c3
      Some(f + "." + m + "." + l),                        // c4
      Some(f + "_" + m + "_" + l),                        // c5
      Some(f + m + l),                                    // c6
      Some(f),                                            // c7: half name
      Some(l),                                            // c8
      Some(f0 + l),                                       // c9: initial + half name
      Some(f + l0),                                       // c10
      Some(l0 + f),                                       // c11
      Some(l + f0),                                       // c12
      if m0.Some? then Some(f0 + m0.value + l) else None,               // c13
      Some(f0 + m + l),                                                 // c14
      if m0.Some? then Some(f + "." + m0.value + "." + l) else None,   // c15
      Some(f + "." + m + l),                                            // c16
      if m0.Some? then Some(f0 + m0.value + l0) else None ]            // c17: initials
  }

  /** None of the first `k` candidates can be computed and equals `local`. */
  predicate MissesBefore(cands: seq<Candidate>, k: int, local: string)
    requires 0 <= k <= |cands|
  {
    forall j | 0 <= j < k :: cands[j].Some? && cands[j].value != local
  }

  /** Tries the rules in order: the index of the first whose candidate is
      `local`, `None` when all are tried without success, or the index error
      of the first rule that cannot be computed before any match. */
  function FirstMatch(cands: seq<Candidate>, local: string): (r: Result<Option<nat>, PyError>)
    ensures r.Success? && r.value.Some? ==>
      r.value.value < |cands| && cands[r.value.value] == Some(local) && MissesBefore(cands, r.value.value, local)
    ensures r == Success(None) <==> MissesBefore(cands, |cands|, local)
    ensures r.Failure? ==> r.error == IndexError
    ensures r.Failure? <==> exists k | 0 <= k < |cands| :: cands[k].None? && MissesBefore(cands, k, local)
  {
    if |cands| == 0 then Success(None)
    else if cands[0].None? then
      assert MissesBefore(cands, 0, local);
      Failure(IndexError)
    else if cands[0].value == local then Success(Some(0))
    else
      var r := FirstMatch(cands[1..], local);
      assert forall k | 0 <= k < |cands[1..]| ::
        MissesBefore(cands[1..], k, local) <==> MissesBefore(cands, k + 1, local);
      if r.Failure? then
        var k :| 0 <= k < |cands[1..]| && cands[1..][k].None? && MissesBefore(cands[1..], k, local);
        assert cands[k + 1].None? && MissesBefore(cands, k + 1, local);
        r
      else if r.value.Some? then Success(Some(r.value.value + 1))
      else
        assert !(exists k | 0 <= k < |cands| :: cands[k].None? && MissesBefore(cands, k, local)) by {
          assert MissesBefore(cands[1..], |cands[1..]|, local);
          assert MissesBefore(cands, |cands|, local);
        }
        r
  }

  /** The name's lower-cased whitespace-separated tokens. */
  function NameTokens(name: string): seq<string> {
    Tokens(Lower(name))
  }

  /** The middle token with its surrounding dots stripped, unless it is a
      single character. */
  function Middle(m: string): (r: string)
    ensures |m| <= 1 ==> r == m
    ensures |r| <= |m|
    ensures |m| > 1 && r != "" ==> r[0] != '.' && r[|r| - 1] != '.'
    ensures |m| > 1 ==> (r == "" <==> forall k | 0 <= k < |m| :: m[k] == '.')
    ensures |m| > 1 ==> r == StripSet(m, {'.'})
  {
    if |m| > 1 then
      StripSetEmpty(m, {'.'});
      StripSet(m, {'.'})
    else m
  }

  /** The classifier. Only three-token names can raise, and then only an index
      error. */
  function PatternType(name: string, email: string): (r: Result<Label, PyError>)
    ensures |NameTokens(name)| == 0 ==> r == Success(Z)
    ensures |NameTokens(name)| == 1 ==> (r == Success(A1) <==> NameTokens(name)[0] == LocalPart(email))
    ensures |NameTokens(name)| == 1 ==> r == Success(A1) || r == Success(Z)
    ensures |NameTokens(name)| == 2 ==> r.Success? && (r.value.B? || r.value == Z)
    ensures |NameTokens(name)| == 3 ==> r.Failure? || r.value.C? || r.value == Z
    ensures |NameTokens(name)| > 3 ==> r == Success(L)
    ensures r.Failure? ==> r.error == IndexError && |NameTokens(name)| == 3
  {
    var local := LocalPart(email);
    var ts := NameTokens(name);
    if |ts| == 1 then
      Success(if ts[0] == local then A1 else Z)
    else if |ts| == 2 then
      match FirstMatch(TwoTokenRules(ts[0], ts[1]), local)
      case Failure(e) => Failure(e)
      case Success(None) => Success(Z)
      case Success(Some(k)) => Success(B(k + 1))
    else if |ts| == 3 then
      match FirstMatch(ThreeTokenRules(ts[0], Middle(ts[1]), ts[2]), local)
      case Failure(e) => Failure(e)
      case Success(None) => Success(Z)
      case Success(Some(k)) => Success(C(k + 1))
    else if |ts| > 3 then
      Success(L)
    else
      Success(Z)
  }

  /** A rule whose candidate is `local`, reached after computable misses
      only, is the rule chosen. */
  lemma {:induction false} FirstMatchAt(cands: seq<Candidate>, local: string, k: nat)
    requires k < |cands| && cands[k] == Some(local) && MissesBefore(cands, k, local)
    ensures FirstMatch(cands, local) == Success(Some(k))
  {
    if k > 0 {
      assert cands[0].Some? && cands[0].value != local;
      assert MissesBefore(cands[1..], k - 1, local);
      FirstMatchAt(cands[1..], local, k - 1);
    }
  }

  /** With two tokens, rule `b(k+1)` is the answer exactly when it produces the
      local part and no earlier rule does. */
  lemma TwoTokenPrecedence(name: string, email: string, k: nat)
    requires |NameTokens(name)| == 2 && k < 10
    ensures var ts := NameTokens(name); var cands := TwoTokenRules(ts[0], ts[1]);
      PatternType(name, email) == Success(B(k + 1)) <==>
        cands[k] == Some(LocalPart(email)) && MissesBefore(cands, k, LocalPart(email))
  {
    var ts := NameTokens(name);
    var cands := TwoTokenRules(ts[0], ts[1]);
    var local := LocalPart(email);
    if cands[k] == Some(local) && MissesBefore(cands, k, local) {
      FirstMatchAt(cands, local, k);
    }
    if PatternType(name, email) == Success(B(k + 1)) {
      assert FirstMatch(cands, local) == Success(Some(k));
    }
  }

  /** With two tokens, the answer is `z` exactly when no rule produces the
      local part. */
  lemma TwoTokenNoMatch(name: string, email: string)
    requires |NameTokens(name)| == 2
    ensures var ts := NameTokens(name);
      PatternType(name, email) == Success(Z) <==>
        MissesBefore(TwoTokenRules(ts[0], ts[1]), 10, LocalPart(email))
  {
  }

  /** With three tokens, rule `c(k+1)` is the answer exactly when it produces
      the local part and every earlier rule computes something else. */
  lemma ThreeTokenPrecedence(name: string, email: string, k: nat)
    requires |NameTokens(name)| == 3 && k < 17
    ensures var ts := NameTokens(name); var cands := ThreeTokenRules(ts[0], Middle(ts[1]), ts[2]);
      PatternType(name, email) == Success(C(k + 1)) <==>
        cands[k] == Some(LocalPart(email)) && MissesBefore(cands, k, LocalPart(email))
  {
    var ts := NameTokens(name);
    var cands := ThreeTokenRules(ts[0], Middle(ts[1]), ts[2]);
    var local := LocalPart(email);
    if cands[k] == Some(local) && MissesBefore(cands, k, local) {
      FirstMatchAt(cands, local, k);
    }
    if PatternType(name, email) == Success(C(k + 1)) {
      assert FirstMatch(cands, local) == Success(Some(k));
    }
  }

  /** With three tokens, the answer is `z` exactly when every rule computes
      something other than the local part. */
  lemma ThreeTokenNoMatch(name: string, email: string)
    requires |NameTokens(name)| == 3
    ensures var ts := NameTokens(name);
      PatternType(name, email) == Success(Z) <==>
        MissesBefore(ThreeTokenRules(ts[0], Middle(ts[1]), ts[2]), 17, LocalPart(email))
  {
  }

  /** With three tokens, the classifier raises exactly when the middle token
      strips to nothing and none of `c1`..`c12` produces the local part. */
  lemma ThreeTokenRaises(name: string, email: string)
    requires |NameTokens(name)| == 3
    ensures var ts := NameTokens(name);
      PatternType(name, email).Failure? <==>
        Middle(ts[1]) == "" && MissesBefore(ThreeTokenRules(ts[0], "", ts[2]), 12, LocalPart(email))
  {
    var ts := NameTokens(name);
    var cands := ThreeTokenRules(ts[0], Middle(ts[1]), ts[2]);
    var local := LocalPart(email);
    if Middle(ts[1]) == "" && MissesBefore(cands, 12, local) {
      assert cands[12].None?;
    }
    if FirstMatch(cands, local).Failure? {
      var k :| 0 <= k < |cands| && cands[k].None? && MissesBefore(cands, k, local);
      assert k in {12, 14, 16};
      assert MissesBefore(cands, 12, local);
    }
  }

  /** A lower-case local part with no `@` is its own local part. */
  lemma LocalPartOfLower(user: string, domain: string)
    requires '@' !in user && NoUpper(user)
    ensures LocalPart(user + "@" + domain) == user
  {
    LocalPartOf(user, domain);
    LowerFixed(user);
  }

  /** A name that lower-cases to two tokens joined by one space has those two
      tokens. */
  lemma TwoTokenName(name: string, f: string, l: string)
    requires IsToken(f) && IsToken(l)
    requires Lower(name) == f + " " + l
    ensures NameTokens(name) == [f, l]
  {
    assert JoinWith(' ', [f, l]) == f + " " + l;
    TokensOfJoin([f, l]);
  }

  /** The same for three tokens. */
  lemma ThreeTokenName(name: string, f: string, m: string, l: string)
    requires IsToken(f) && IsToken(m) && IsToken(l)
    requires Lower(name) == f + " " + m + " " + l
    ensures NameTokens(name) == [f, m, l]
  {
    assert [f, m, l][1..] == [m, l];
    assert JoinWith(' ', [m, l]) == m + " " + l;
    assert JoinWith(' ', [f, m, l]) == f + " " + (m + " " + l);
    assert f + " " + (m + " " + l) == f + " " + m + " " + l;
    TokensOfJoin([f, m, l]);
  }

  lemma JohnSmithLower()
    ensures Lower("John Smith") == "john" + " " + "smith"
  {
  }

  lemma JohnSmithTokens()
    ensures NameTokens("John Smith") == ["john", "smith"]
  {
    JohnSmithLower();
    PrintableToken("john");
    PrintableToken("smith");
    TwoTokenName("John Smith", "john", "smith");
  }

  lemma JohnSmithLocal()
    ensures LocalPart("john.smith@example.com") == "john.smith"
  {
    var user := "john.smith";
    assert NoUpper(user) by {
      forall i | 0 <= i < |user| ensures !IsUpper(user[i]) {
      }
    }
    LocalPartOfLower(user, "example.com");
    assert user + "@" + "example.com" == "john.smith@example.com";
  }

  lemma JohnSmithRule()
    ensures TwoTokenRules("john", "smith")[0] == Some("john.smith")
  {
    assert "john" + "." + "smith" == "john.smith";
  }

  /** "John Smith" with `john.smith@...` follows rule `b1`. */
  lemma FullNameWithDotExample()
    ensures PatternType("John Smith", "john.smith@example.com") == Success(B(1))
  {
    JohnSmithTokens();
    JohnSmithLocal();
    JohnSmithRule();
    TwoTokenPrecedence("John Smith", "john.smith@example.com", 0);
  }

  lemma AnnLeeLower()
    ensures Lower("Ann .. Lee") == "ann" + " " + ".." + " " + "lee"
  {
  }

  lemma AnnLeeTokens()
    ensures NameTokens("Ann .. Lee") == ["ann", "..", "lee"]
  {
    AnnLeeLower();
    PrintableToken("ann");
    PrintableToken("..");
    PrintableToken("lee");
    ThreeTokenName("Ann .. Lee", "ann", "..", "lee");
  }

  lemma AnnLeeLocal()
    ensures LocalPart("zz@example.com") == "zz"
  {
    LocalPartOfLower("zz", "example.com");
    assert "zz" + "@" + "example.com" == "zz@example.com";
  }

  /** A middle token of dots only strips to nothing. */
  lemma DotsMiddle()
    ensures Middle("..") == ""
  {
    StripSetEmpty("..", {'.'});
  }

  lemma AnnLeeMisses()
    ensures MissesBefore(ThreeTokenRules("ann", "", "lee"), 12, "zz")
  {
    var cands := ThreeTokenRules("ann", "", "lee");
    forall j | 0 <= j < 12 ensures cands[j].Some? && cands[j].value != "zz" {
      assert cands[j].value[0] != 'z';
    }
  }

  /** A middle token made only of dots raises when no earlier rule matches:
      "Ann .. Lee" with `zz@...` reaches rule `c13` and indexes an empty string. */
  lemma DottedMiddleExample()
    ensures PatternType("Ann .. Lee", "zz@example.com") == Failure(IndexError)
  {
    AnnLeeTokens();
    AnnLeeLocal();
    DotsMiddle();
    AnnLeeMisses();
    ThreeTokenRaises("Ann .. Lee", "zz@example.com");
  }
}
