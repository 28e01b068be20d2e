/** The credential gate (phishing_rod.py): structural signals, their combined rule risk, and
    the verdict a model opinion can and cannot change. */
module PhishingRod {
  import opened Prelude

  const FORM_LIMIT := 32

  datatype Code =
    | LocalOrigin | KnownThreat | Punycode | RedirectChain | Urgency | RecoveryRequest
    | Injection | BrandMismatch | ExternalForm | PasswordForm | PaymentForm

  /** `fromModel` is the test on the signal's source. */
  datatype Signal = Signal(code: Code, weight: real, fromModel: bool)

  /** What the pattern and host tests found in one form. */
  datatype Form = Form(sensitiveElsewhere: bool, password: bool, payment: bool)

  /** What they found on the page. */
  datatype Packet = Packet(local: bool, known: bool, punycode: bool, redirects: int, urgent: bool,
                           recovery: bool, injection: bool, mismatch: bool, forms: seq<Form>)

  function When(found: bool, code: Code, weight: real): seq<Signal> {
    if found then [Signal(code, weight, false)] else []
  }

  function FormSignals(form: Form): seq<Signal> {
    When(form.sensitiveElsewhere, ExternalForm, 0.94) + When(form.password, PasswordForm, 0.08) +
        When(form.payment, PaymentForm, 0.12)
  }

  function RedirectWeight(redirects: int): real { RMin(0.3, redirects as real * 0.04) }

  function UrlSignals(packet: Packet): seq<Signal> {
    When(packet.local, LocalOrigin, 0.0) + When(packet.known, KnownThreat, 1.0) + When(packet.punycode, Punycode, 0.36)
    + When(packet.redirects >= 4, RedirectChain, RedirectWeight(packet.redirects))
  }

  function ContentSignals(packet: Packet): seq<Signal> {
    When(packet.urgent, Urgency, 0.18) + When(packet.recovery, RecoveryRequest, 0.9)
    + When(packet.injection, Injection, 0.42) + When(packet.mismatch, BrandMismatch, 0.62)
  }

  function PageSignals(packet: Packet): seq<Signal> { UrlSignals(packet) + ContentSignals(packet) }

  function AllFormSignals(forms: seq<Form>): seq<Signal> {
    if forms == [] then [] else AllFormSignals(forms[..|forms| - 1]) + FormSignals(forms[|forms| - 1])
  }

  /** The signals of a page, then those of at most 32 forms. */
  function Collected(packet: Packet): seq<Signal> {
    PageSignals(packet) + AllFormSignals(Take(packet.forms, FORM_LIMIT))
  }

  method CollectSignals(packet: Packet) returns (signals: seq<Signal>)
    ensures signals == Collected(packet)
  {
    signals := AppendFormSignals(PageSignals(packet), Take(packet.forms, FORM_LIMIT));
  }

  lemma OneFormMore(page: seq<Signal>, forms: seq<Form>, k: nat)
    requires k < |forms|
    ensures page + AllFormSignals(forms[..k + 1]) == (page + AllFormSignals(forms[..k])) + FormSignals(forms[k])
  {
    var longer := forms[..k + 1];
    assert longer[..|longer| - 1] == forms[..k] && longer[|longer| - 1] == forms[k];
  }

  method AppendFormSignals(page: seq<Signal>, forms: seq<Form>) returns (signals: seq<Signal>)
    ensures signals == page + AllFormSignals(forms)
  {
    signals := page;
    for k := 0 to |forms|
      invariant signals == page + AllFormSignals(forms[..k])
    {
      OneFormMore(page, forms, k);
      signals := signals + FormSignals(forms[k]);
    }
    assert forms[..|forms|] == forms;
  }

  /** The chance, by its weight, that a signal is wrong. */
  function Miss(signal: Signal): (r: real)
    ensures 0.0 <= r <= 1.0
  {
    1.0 - Clamp(signal.weight)
  }

  function Survival(signals: seq<Signal>): real {
    if signals == [] then 1.0
    else Survival(signals[..|signals| - 1]) * Miss(signals[|signals| - 1])
  }

  lemma Shrinks(a: real, b: real, c: real, x: real, y: real)
    requires a <= b && 0.0 <= c && x == a * c && y == b * c
    ensures x <= y
  {
    assert a * c <= b * c;
  }

  lemma UnitProduct(a: real, b: real, x: real)
    requires 0.0 <= a <= 1.0 && 0.0 <= b <= 1.0 && x == a * b
    ensures 0.0 <= x <= 1.0
  {
    assert 0.0 <= a * b;
    assert a * b <= 1.0 * b;
  }

  lemma {:induction false} SurvivalInUnit(signals: seq<Signal>)
    ensures 0.0 <= Survival(signals) <= 1.0
  {
    if signals != [] {
      SurvivalInUnit(signals[..|signals| - 1]);
      UnitProduct(Survival(signals[..|signals| - 1]), Miss(signals[|signals| - 1]), Survival(signals));
    }
  }

  /** The noisy-or of the weights; the outer clamp cuts nothing. */
  method DeterministicRisk(signals: seq<Signal>) returns (risk: real)
    ensures risk == 1.0 - Survival(signals) && 0.0 <= risk <= 1.0
  {
    risk := 1.0;
    for k := 0 to |signals|
      invariant risk == Survival(signals[..k])
    {
      assert signals[..k + 1][..k] == signals[..k];
      risk := risk * Miss(signals[k]);
    }
    assert signals[..|signals|] == signals;
    SurvivalInUnit(signals);
    risk := Clamp(1.0 - risk);
  }

  lemma LastApart(signals: seq<Signal>, last: Signal)
    ensures Survival(signals + [last]) == Survival(signals) * Miss(last)
  {
    assert (signals + [last])[..|signals|] == signals;
  }

  lemma Swapped(a: real, b: real, c: real)
    ensures a * b * c == a * c * b
  {
  }

  lemma {:induction false} SurvivalWithout(left: seq<Signal>, signal: Signal, right: seq<Signal>)
    ensures Survival(left + [signal] + right) == Survival(left + right) * Miss(signal)
    decreases |right|
  {
    if right == [] {
      assert left + [signal] + right == left + [signal] && left + right == left;
      LastApart(left, signal);
    } else {
      var n := |right| - 1;
      var front, last := right[..n], right[n];
      assert left + [signal] + right == (left + [signal] + front) + [last];
      assert left + right == (left + front) + [last];
      LastApart(left + [signal] + front, last);
      LastApart(left + front, last);
      SurvivalWithout(left, signal, front);
      Swapped(Survival(left + front), Miss(signal), Miss(last));
    }
  }

  lemma CancelOne(a: multiset<Signal>, b: multiset<Signal>, x: Signal)
    requires a + multiset{x} <= b + multiset{x}
    ensures a <= b
  {
    forall y | y in a
      ensures a[y] <= b[y]
    {
      assert (a + multiset{x})[y] <= (b + multiset{x})[y];
    }
  }

  lemma TakeOut(few: seq<Signal>, many: seq<Signal>) returns (left: seq<Signal>, right: seq<Signal>)
    requires few != [] && multiset(few) <= multiset(many)
    ensures many == left + [few[|few| - 1]] + right
    ensures multiset(few[..|few| - 1]) <= multiset(left + right)
  {
    var n := |few| - 1;
    assert few == few[..n] + [few[n]];
    assert few[n] in multiset(few);
    assert few[n] in many;
    var i :| 0 <= i < |many| && many[i] == few[n];
    left, right := many[..i], many[i + 1..];
    assert many == left + [few[n]] + right;
    CancelOne(multiset(few[..n]), multiset(left + right), few[n]);
  }

  /** More signals, in any order, leave less chance that none of them is right. */
  lemma {:induction false} MoreSignalsMoreRisk(few: seq<Signal>, many: seq<Signal>)
    requires multiset(few) <= multiset(many)
    ensures Survival(many) <= Survival(few)
    decreases |few|
  {
    if few == [] {
      SurvivalInUnit(many);
    } else {
      var n := |few| - 1;
      var left, right := TakeOut(few, many);
      MoreSignalsMoreRisk(few[..n], left + right);
      SignalBack(few[..n], left, few[n], right);
      assert few == few[..n] + [few[n]];
    }
  }

  /** Putting one signal back on both sides. */
  lemma SignalBack(front: seq<Signal>, left: seq<Signal>, signal: Signal, right: seq<Signal>)
    requires Survival(left + right) <= Survival(front)
    ensures Survival(left + [signal] + right) <= Survival(front + [signal])
  {
    var miss := Miss(signal);
    var rest, few := Survival(left + right), Survival(front);
    var many := InsertedSurvives(left, signal, right, rest, miss);
    var more := AddedSurvives(front, signal, few, miss);
    Shrinks(rest, few, miss, many, more);
  }

  lemma InsertedSurvives(left: seq<Signal>, signal: Signal, right: seq<Signal>, rest: real, miss: real)
      returns (all: real)
    requires rest == Survival(left + right) && miss == Miss(signal)
    ensures all == Survival(left + [signal] + right) && all == rest * miss
  {
    SurvivalWithout(left, signal, right);
    all := Survival(left + [signal] + right);
  }

  lemma AddedSurvives(front: seq<Signal>, signal: Signal, rest: real, miss: real) returns (all: real)
    requires rest == Survival(front) && miss == Miss(signal)
    ensures all == Survival(front + [signal]) && all == rest * miss
  {
    LastApart(front, signal);
    all := Survival(front + [signal]);
  }

  datatype Verdict = Safe | Review | Phishing {
    function Rank(): nat { if Safe? then 0 else if Review? then 1 else 2 }
  }

  /** A classifier's answer; an unreadable verdict counts as Review. */
  datatype Opinion = Opinion(verdict: Verdict, confidence: real)

  /** No classifier, a classifier without an answer, or one with an answer. */
  datatype Model = NoClassifier | NoAnswer | Answer(opinion: Opinion)

  function NormalizeModel(model: Model): Opinion {
    match model
    case Answer(o) => Opinion(o.verdict, Clamp(o.confidence))
    case _ => Opinion(Review, 0.0)
  }

  predicate Has(signals: seq<Signal>, code: Code) { exists i :: 0 <= i < |signals| && signals[i].code == code }

  predicate Independent(signals: seq<Signal>) {
    exists i :: 0 <= i < |signals| && signals[i].weight >= 0.3 && !signals[i].fromModel
  }

  /** The three codes that settle the verdict on their own. */
  predicate Conclusive(signals: seq<Signal>) {
    Has(signals, KnownThreat) || Has(signals, ExternalForm) || Has(signals, RecoveryRequest)
  }

  predicate Sensitive(signals: seq<Signal>) {
    Has(signals, PasswordForm) || Has(signals, PaymentForm) || Has(signals, ExternalForm) ||
        Has(signals, RecoveryRequest)
  }

  function Risk(signals: seq<Signal>): real { 1.0 - Survival(signals) }

  /** What an accusation leaves of the page's chance of being harmless. */
  function Doubt(model: Opinion): real { 1.0 - (if Accuses(model) then model.confidence * 0.55 else 0.0) }

  predicate Accuses(model: Opinion) { model.verdict == Phishing && model.confidence >= 0.82 }

  predicate Clears(model: Opinion) { model.verdict == Safe && model.confidence >= 0.78 }

  /** Scores before their six-digit rounding; `pause` is also the frosted page. */
  datatype Decision = Decision(
    verdict: Verdict, visible: Verdict, confidence: real, riskScore: real, pause: bool, requiresReview: bool)

  /** The decision, from the rule risk and what the signals contain. */
  function Judge(conclusive: bool, independent: bool, sensitive: bool, risk: real, given: Model): Decision {
    var model := NormalizeModel(given);
    var combined := 1.0 - (1.0 - risk) * Doubt(model);
    var phishing := conclusive || (Accuses(model) && independent) || combined >= 0.86;
    var safe := !phishing && risk < 0.18 && (Clears(model) || given.NoClassifier?);
    var verdict := if phishing then Phishing else if safe then Safe else Review;
    Decision(verdict, if !verdict.Safe? && sensitive then Phishing else verdict,
             RMax(combined, if verdict == model.verdict then model.confidence else risk), combined,
             verdict == Phishing || (verdict == Review && sensitive), verdict == Review)
  }

  function Decide(signals: seq<Signal>, given: Model): Decision {
    Judge(Conclusive(signals), Independent(signals), Sensitive(signals), Risk(signals), given)
  }

  method CountIndependent(signals: seq<Signal>) returns (independent: nat)
    ensures independent >= 1 <==> Independent(signals)
  {
    independent := 0;
    for k := 0 to |signals|
      invariant independent >= 1 <==> Independent(signals[..k])
    {
      assert signals[..k + 1] == signals[..k] + [signals[k]];
      assert signals[..k + 1][k] == signals[k];
      assert forall i :: 0 <= i < k ==> signals[..k + 1][i] == signals[..k][i];
      if signals[k].weight >= 0.3 && !signals[k].fromModel {
        independent := independent + 1;
      }
    }
    assert signals[..|signals|] == signals;
  }

  /** The whole analysis of a packet. */
  method Analyze(packet: Packet, given: Model) returns (decision: Decision)
    ensures decision == Decide(Collected(packet), given)
  {
    var signals := CollectSignals(packet);
    var ruleRisk := DeterministicRisk(signals);
    var independent := CountIndependent(signals);
    decision := Judge(Conclusive(signals), independent >= 1, Sensitive(signals), ruleRisk, given);
  }

  lemma StillHas(few: seq<Signal>, many: seq<Signal>, code: Code)
    requires multiset(few) <= multiset(many) && Has(few, code)
    ensures Has(many, code)
  {
    var i :| 0 <= i < |few| && few[i].code == code;
    assert few[i] in multiset(few);
    assert few[i] in many;
  }

  lemma StillIndependent(few: seq<Signal>, many: seq<Signal>)
    requires multiset(few) <= multiset(many) && Independent(few)
    ensures Independent(many)
  {
    var i :| 0 <= i < |few| && few[i].weight >= 0.3 && !few[i].fromModel;
    assert few[i] in multiset(few);
    assert few[i] in many;
  }

  lemma StillSettled(few: seq<Signal>, many: seq<Signal>)
    requires multiset(few) <= multiset(many)
    ensures Conclusive(few) ==> Conclusive(many)
    ensures Sensitive(few) ==> Sensitive(many)
    ensures Independent(few) ==> Independent(many)
  {
    forall code | Has(few, code)
      ensures Has(many, code)
    {
      StillHas(few, many, code);
    }
    if Independent(few) {
      StillIndependent(few, many);
    }
  }

  lemma JudgeMonotone(c: bool, i: bool, t: bool, risk: real, c': bool, i': bool, t': bool, risk': real, given: Model)
    requires (c ==> c') && (i ==> i') && (t ==> t') && risk <= risk'
    ensures Judge(c, i, t, risk, given).verdict.Rank() <= Judge(c', i', t', risk', given).verdict.Rank()
    ensures Judge(c, i, t, risk, given).visible.Rank() <= Judge(c', i', t', risk', given).visible.Rank()
    ensures Judge(c, i, t, risk, given).riskScore <= Judge(c', i', t', risk', given).riskScore
    ensures Judge(c, i, t, risk, given).pause ==> Judge(c', i', t', risk', given).pause
  {
    Shrinks(1.0 - risk', 1.0 - risk, Doubt(NormalizeModel(given)),
            1.0 - Judge(c', i', t', risk', given).riskScore, 1.0 - Judge(c, i, t, risk, given).riskScore);
  }

  lemma JudgeBounded(conclusive: bool, independent: bool, sensitive: bool, risk: real, given: Model, left: real)
    requires 0.0 <= risk <= 1.0 && 0.0 <= left <= 1.0 && left == (1.0 - risk) * Doubt(NormalizeModel(given))
    ensures var d := Judge(conclusive, independent, sensitive, risk, given);
      d.riskScore == 1.0 - left && d.riskScore <= d.confidence <= 1.0
  {
  }

  /** The scores are chances, and the confidence is never below the score. */
  lemma DecisionBounded(signals: seq<Signal>, given: Model)
    ensures 0.0 <= Decide(signals, given).riskScore <= Decide(signals, given).confidence <= 1.0
  {
    var doubt := Doubt(NormalizeModel(given));
    var left := (1.0 - Risk(signals)) * doubt;
    SurvivalInUnit(signals);
    UnitProduct(1.0 - Risk(signals), doubt, left);
    JudgeBounded(Conclusive(signals), Independent(signals), Sensitive(signals), Risk(signals), given, left);
  }

  /** For a fixed opinion, further signals never soften the decision. */
  lemma MoreSignalsNeverSoften(few: seq<Signal>, many: seq<Signal>, given: Model)
    requires multiset(few) <= multiset(many)
    ensures Decide(few, given).verdict.Rank() <= Decide(many, given).verdict.Rank()
    ensures Decide(few, given).visible.Rank() <= Decide(many, given).visible.Rank()
    ensures Decide(few, given).riskScore <= Decide(many, given).riskScore
    ensures Decide(few, given).pause ==> Decide(many, given).pause
  {
    StillSettled(few, many);
    MoreSignalsMoreRisk(few, many);
    JudgeMonotone(Conclusive(few), Independent(few), Sensitive(few), 1.0 - Survival(few),
                  Conclusive(many), Independent(many), Sensitive(many), 1.0 - Survival(many), given);
  }

  /** Rule risk from which a certain accusation alone reaches the phishing threshold. */
  const ALONE := 31.0 / 45.0

  /** An accusation leaves at least 0.45 of the doubt, and exactly that when it is certain. */
  lemma AccusationNeeds(c: bool, i: bool, t: bool, risk: real, given: Model)
    requires 0.0 <= risk <= 1.0
    ensures Judge(c, i, t, risk, given).riskScore >= 0.86 ==> risk >= ALONE
    ensures risk >= 0.86 ==> Judge(c, i, t, risk, given).riskScore >= 0.86
    ensures risk >= ALONE ==> Judge(c, i, t, risk, Answer(Opinion(Phishing, 1.0))).riskScore >= 0.86
  {
    Doubted(1.0 - risk, Doubt(NormalizeModel(given)), 1.0 - Judge(c, i, t, risk, given).riskScore);
    assert Doubt(NormalizeModel(Answer(Opinion(Phishing, 1.0)))) == 0.45;
  }

  lemma Doubted(chance: real, doubt: real, left: real)
    requires 0.0 <= chance && 0.45 <= doubt <= 1.0 && left == chance * doubt
    ensures 0.45 * chance <= left <= chance
  {
    assert chance * 0.45 <= chance * doubt;
    assert chance * doubt <= chance * 1.0;
  }

  /** Some opinion brings a phishing verdict exactly when a code settles it, a signal of
      weight at least 0.3 supports it, or the rule risk is at least 31/45. */
  lemma WhenAccusable(signals: seq<Signal>)
    ensures (exists given :: Decide(signals, given).verdict == Phishing) <==>
            (Conclusive(signals) || Independent(signals) || Risk(signals) >= ALONE)
  {
    var worst := Answer(Opinion(Phishing, 1.0));
    SurvivalInUnit(signals);
    AccusationNeeds(Conclusive(signals), Independent(signals), Sensitive(signals), Risk(signals), worst);
    if Conclusive(signals) || Independent(signals) || Risk(signals) >= ALONE {
      assert Decide(signals, worst).verdict == Phishing;
    }
    forall given | Decide(signals, given).verdict == Phishing
      ensures Conclusive(signals) || Independent(signals) || Risk(signals) >= ALONE
    {
      AccusationNeeds(Conclusive(signals), Independent(signals), Sensitive(signals), Risk(signals), given);
    }
  }

  /** The opinion alone decides whether the page freezes: one freezes it, another does not. */
  ghost predicate OpinionDecides(signals: seq<Signal>) {
    exists frozen, free :: Decide(signals, frozen).pause && !Decide(signals, free).pause
  }

  /** Frozen whatever the model says. */
  predicate AlwaysFrozen(signals: seq<Signal>) {
    Conclusive(signals) || Risk(signals) >= 0.86 || (Sensitive(signals) && Risk(signals) >= 0.18)
  }

  /** The exact reach of an opinion, for any signals. */
  lemma WhenOpinionDecides(signals: seq<Signal>)
    ensures OpinionDecides(signals) <==>
            (!AlwaysFrozen(signals)
             && (Sensitive(signals) || Independent(signals) || Risk(signals) >= ALONE))
  {
    var worst, best := Answer(Opinion(Phishing, 1.0)), NoClassifier;
    SurvivalInUnit(signals);
    AccusationNeeds(Conclusive(signals), Independent(signals), Sensitive(signals), Risk(signals), worst);
    AccusationNeeds(Conclusive(signals), Independent(signals), Sensitive(signals), Risk(signals), best);
    if !AlwaysFrozen(signals) {
      assert !Decide(signals, best).pause;
      if Sensitive(signals) || Independent(signals) || Risk(signals) >= ALONE {
        assert Decide(signals, worst).pause;
      }
    }
    forall given
      ensures AlwaysFrozen(signals) ==> Decide(signals, given).pause
      ensures Decide(signals, given).pause ==>
                AlwaysFrozen(signals) || Sensitive(signals) || Independent(signals) || Risk(signals) >= ALONE
    {
      AccusationNeeds(Conclusive(signals), Independent(signals), Sensitive(signals), Risk(signals), given);
    }
  }

  /** A structural signal of a page is found among its signals. */
  lemma {:induction false} FormSignalFound(forms: seq<Form>, k: nat)
    requires k < |forms|
    ensures forall x :: x in FormSignals(forms[k]) ==> x in AllFormSignals(forms)
  {
    if k < |forms| - 1 {
      FormSignalFound(forms[..|forms| - 1], k);
    }
  }

  lemma InBoth(a: seq<Signal>, b: seq<Signal>, x: Signal)
    requires x in a || x in b
    ensures x in a + b
    ensures Has(a + b, x.code)
    ensures x.weight >= 0.3 && !x.fromModel ==> Independent(a + b)
  {
    assert x in a + b;
    var i :| 0 <= i < |a + b| && (a + b)[i] == x;
  }

  lemma {:induction false} NoFields(forms: seq<Form>)
    requires forall form :: form in forms ==> FormSignals(form) == []
    ensures AllFormSignals(forms) == []
  {
    if forms != [] {
      NoFields(forms[..|forms| - 1]);
    }
  }

  predicate Quiet(packet: Packet) {
    !packet.known && !packet.punycode && !packet.recovery && !packet.injection && !packet.mismatch
  }

  /** Without an independent signal none of the strong page tests fired. */
  lemma WeakPageIsQuiet(packet: Packet, rest: seq<Signal>)
    requires !Independent(PageSignals(packet) + rest)
    ensures Quiet(packet)
  {
    forall x | x in PageSignals(packet) && x.weight >= 0.3 && !x.fromModel
      ensures false
    {
      InBoth(PageSignals(packet), rest, x);
    }
    var p := PageSignals(packet);
    assert packet.known ==> Signal(KnownThreat, 1.0, false) in p;
    assert packet.punycode ==> Signal(Punycode, 0.36, false) in p;
    assert packet.recovery ==> Signal(RecoveryRequest, 0.9, false) in p;
    assert packet.injection ==> Signal(Injection, 0.42, false) in p;
    assert packet.mismatch ==> Signal(BrandMismatch, 0.62, false) in p;
  }

  /** What is left of a quiet page. */
  function QuietSignals(local: bool, redirects: int, urgent: bool): seq<Signal> {
    When(local, LocalOrigin, 0.0) + When(redirects >= 4, RedirectChain, RedirectWeight(redirects)) +
        When(urgent, Urgency, 0.18)
  }

  lemma QuietPage(packet: Packet)
    requires Quiet(packet)
    ensures PageSignals(packet) == QuietSignals(packet.local, packet.redirects, packet.urgent)
  {
  }

  /** It is worth less than an accusation needs. */
  lemma QuietRisk(local: bool, redirects: int, urgent: bool)
    ensures Risk(QuietSignals(local, redirects, urgent)) < ALONE
  {
    var a := When(local, LocalOrigin, 0.0);
    var b := When(redirects >= 4, RedirectChain, RedirectWeight(redirects));
    WhenSurvives([], local, LocalOrigin, 0.0);
    assert [] + a == a;
    WhenSurvives(a, redirects >= 4, RedirectChain, RedirectWeight(redirects));
    WhenSurvives(a + b, urgent, Urgency, 0.18);
    assert 0.7 <= Survival(a + b);
  }

  lemma WhenSurvives(before: seq<Signal>, found: bool, code: Code, weight: real)
    requires found ==> 0.0 <= weight <= 1.0
    ensures Survival(before + When(found, code, weight)) == if found then Survival(before) * (1.0 - weight)
        else Survival(before)
  {
    if found {
      LastApart(before, Signal(code, weight, false));
      assert Miss(Signal(code, weight, false)) == 1.0 - weight;
    } else {
      assert before + When(found, code, weight) == before;
    }
  }

  predicate Strong(x: Signal) { x.code.KnownThreat? || x.code.ExternalForm? || x.code.RecoveryRequest? }

  ghost predicate StrongCodesWeigh(signals: seq<Signal>) {
    forall x :: x in signals && Strong(x) ==> x.weight >= 0.3 && !x.fromModel
  }

  lemma {:induction false} FormsWeigh(forms: seq<Form>)
    ensures StrongCodesWeigh(AllFormSignals(forms))
  {
    if forms != [] {
      FormsWeigh(forms[..|forms| - 1]);
    }
  }

  lemma BothWeigh(a: seq<Signal>, b: seq<Signal>)
    requires StrongCodesWeigh(a) && StrongCodesWeigh(b)
    ensures StrongCodesWeigh(a + b)
  {
  }

  lemma OneWeighs(there: bool, code: Code, weight: real)
    requires weight >= 0.3 || !Strong(Signal(code, weight, false))
    ensures StrongCodesWeigh(When(there, code, weight))
  {
  }

  lemma UrlWeighs(packet: Packet)
    ensures StrongCodesWeigh(UrlSignals(packet))
  {
    var a, b := When(packet.local, LocalOrigin, 0.0), When(packet.known, KnownThreat, 1.0);
    var c := When(packet.punycode, Punycode, 0.36);
    var d := When(packet.redirects >= 4, RedirectChain, RedirectWeight(packet.redirects));
    OneWeighs(packet.known, KnownThreat, 1.0);
    BothWeigh(a, b);
    BothWeigh(a + b, c);
    BothWeigh(a + b + c, d);
  }

  lemma ContentWeighs(packet: Packet)
    ensures StrongCodesWeigh(ContentSignals(packet))
  {
    var a, b := When(packet.urgent, Urgency, 0.18), When(packet.recovery, RecoveryRequest, 0.9);
    var c, d := When(packet.injection, Injection, 0.42), When(packet.mismatch, BrandMismatch, 0.62);
    OneWeighs(packet.recovery, RecoveryRequest, 0.9);
    BothWeigh(a, b);
    BothWeigh(a + b, c);
    BothWeigh(a + b + c, d);
  }

  lemma PageWeighs(packet: Packet)
    ensures StrongCodesWeigh(PageSignals(packet))
  {
    UrlWeighs(packet);
    ContentWeighs(packet);
    BothWeigh(UrlSignals(packet), ContentSignals(packet));
  }

  /** A code that settles the verdict always comes with an independent weight. */
  lemma ConclusiveNeedsIndependent(packet: Packet)
    ensures Conclusive(Collected(packet)) ==> Independent(Collected(packet))
  {
    var signals, forms := Collected(packet), Take(packet.forms, FORM_LIMIT);
    FormsWeigh(forms);
    PageWeighs(packet);
    forall i | 0 <= i < |signals| && Strong(signals[i])
      ensures Independent(signals)
    {
      InBoth(PageSignals(packet), AllFormSignals(forms), signals[i]);
    }
  }

  lemma NoSensitiveField(page: seq<Signal>, forms: seq<Form>, form: Form)
    requires !Sensitive(page + AllFormSignals(forms)) && form in forms
    ensures FormSignals(form) == []
  {
    var k :| 0 <= k < |forms| && forms[k] == form;
    FormSignalFound(forms, k);
    forall x | x in FormSignals(form)
      ensures Has(page + AllFormSignals(forms), x.code)
    {
      InBoth(page, AllFormSignals(forms), x);
    }
    assert form.sensitiveElsewhere ==> Signal(ExternalForm, 0.94, false) in FormSignals(form);
    assert form.password ==> Signal(PasswordForm, 0.08, false) in FormSignals(form);
    assert form.payment ==> Signal(PaymentForm, 0.12, false) in FormSignals(form);
  }

  /** The documentation says an opinion cannot freeze a page by itself. On a page without an
      independent signal it does, exactly when the page asks for a password or for card data
      and the rule risk is still under the limit for Safe. */
  lemma OpinionWithoutEvidence(packet: Packet)
    requires !Independent(Collected(packet))
    ensures OpinionDecides(Collected(packet)) <==> (Sensitive(Collected(packet)) && Risk(Collected(packet)) < 0.18)
  {
    var signals := Collected(packet);
    var forms := Take(packet.forms, FORM_LIMIT);
    WeakPageIsQuiet(packet, AllFormSignals(forms));
    WhenOpinionDecides(signals);
    ConclusiveNeedsIndependent(packet);
    if !Sensitive(signals) {
      forall form | form in forms
        ensures FormSignals(form) == []
      {
        NoSensitiveField(PageSignals(packet), forms, form);
      }
      NoFields(forms);
      assert signals == PageSignals(packet);
      QuietPage(packet);
      QuietRisk(packet.local, packet.redirects, packet.urgent);
    }
  }

  const PLAIN := Packet(false, false, false, 0, false, false, false, false, [])

  /** A page with one password field and nothing else: an accusation freezes it. */
  lemma OpinionFreezesAlone()
    ensures var signals := Collected(PLAIN.(forms := [Form(false, true, false)]));
            && !Independent(signals)
            && Decide(signals, Answer(Opinion(Phishing, 0.82))).pause
            && !Decide(signals, NoClassifier).pause
  {
    PlainForms([Form(false, true, false)]);
    OneForm();
    OnePassword(Collected(PLAIN.(forms := [Form(false, true, false)])));
  }

  lemma OneForm()
    ensures AllFormSignals([Form(false, true, false)]) == [Signal(PasswordForm, 0.08, false)]
  {
    assert [Form(false, true, false)][..0] == [];
  }

  lemma OnePassword(signals: seq<Signal>)
    requires signals == [Signal(PasswordForm, 0.08, false)]
    ensures !Independent(signals)
    ensures Decide(signals, Answer(Opinion(Phishing, 0.82))).pause && !Decide(signals, NoClassifier).pause
  {
    WhenSurvives([], true, PasswordForm, 0.08);
    assert [] + signals == signals;
    assert signals[0].code == PasswordForm;
    assert Risk(signals) == 0.08 && !Conclusive(signals) && Sensitive(signals);
  }

  lemma PlainForms(forms: seq<Form>)
    requires |forms| <= FORM_LIMIT
    ensures Collected(PLAIN.(forms := forms)) == AllFormSignals(forms)
  {
    assert PageSignals(PLAIN.(forms := forms)) == [];
  }

  function Checkouts(n: nat): seq<Form> { seq(n, i => Form(false, true, true)) }

  lemma CheckoutSurvival(n: nat)
    ensures Survival(AllFormSignals(Checkouts(n + 1))) == Survival(AllFormSignals(Checkouts(n))) * 0.8096
    ensures Survival(AllFormSignals(Checkouts(0))) == 1.0
  {
    assert Checkouts(n + 1)[..n] == Checkouts(n);
    var before, password, payment :=
        AllFormSignals(Checkouts(n)), When(true, PasswordForm, 0.08), When(true, PaymentForm, 0.12);
    assert AllFormSignals(Checkouts(n + 1)) == before + password + payment;
    WhenSurvives(before, true, PasswordForm, 0.08);
    WhenSurvives(before + password, true, PaymentForm, 0.12);
  }

  lemma {:induction false} CheckoutsAreWeak(n: nat)
    ensures !Independent(AllFormSignals(Checkouts(n)))
  {
    if n > 0 {
      assert Checkouts(n)[..n - 1] == Checkouts(n - 1);
      CheckoutsAreWeak(n - 1);
    }
  }

  /** Six forms that ask for a password and card data: a certain accusation reaches a phishing
      verdict with no signal of weight 0.3 beside it, and without it the page is in review. */
  lemma OpinionAccusesAlone()
    ensures var signals := Collected(PLAIN.(forms := Checkouts(6)));
            && !Independent(signals)
            && Decide(signals, Answer(Opinion(Phishing, 1.0))).verdict == Phishing
            && Decide(signals, NoAnswer).verdict == Review
  {
    var packet := PLAIN.(forms := Checkouts(6));
    PlainForms(Checkouts(6));
    CheckoutsAreWeak(6);
    SixCheckouts();
    ConclusiveNeedsIndependent(packet);
    WeakButAccused(Collected(packet));
  }

  lemma WeakButAccused(signals: seq<Signal>)
    requires !Independent(signals) && !Conclusive(signals) && 0.28 <= Survival(signals) <= 0.29
    ensures Decide(signals, Answer(Opinion(Phishing, 1.0))).verdict == Phishing
    ensures Decide(signals, NoAnswer).verdict == Review
  {
    AccusationNeeds(false, false, Sensitive(signals), Risk(signals), Answer(Opinion(Phishing, 1.0)));
  }

  lemma SixCheckouts()
    ensures 0.28 <= Survival(AllFormSignals(Checkouts(6))) <= 0.29
  {
    CheckoutSurvival(0);
    CheckoutSurvival(1);
    CheckoutSurvival(2);
    CheckoutSurvival(3);
    CheckoutSurvival(4);
    CheckoutSurvival(5);
  }
}
