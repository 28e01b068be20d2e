/** What the credential gate tells the browser, and which signals a page is charged with. */
module PhishingVerdicts {
  import opened Prelude
  import opened PhishingRod

  predicate Accused(given: Model) {
    given.Answer? && given.opinion.verdict == Phishing && given.opinion.confidence >= 0.82
  }

  predicate Cleared(given: Model) {
    given.Answer? && given.opinion.verdict == Safe && given.opinion.confidence >= 0.78
  }

  /** One of three codes among the signals settles the verdict. */
  predicate Settled(signals: seq<Signal>) {
    exists i :: 0 <= i < |signals| &&
      (signals[i].code == KnownThreat || signals[i].code == ExternalForm || signals[i].code == RecoveryRequest)
  }

  /** The page asks for a password, for card data, for a recovery secret, or sends such a form elsewhere. */
  predicate Asks(signals: seq<Signal>) {
    exists i :: 0 <= i < |signals| &&
      (signals[i].code == PasswordForm || signals[i].code == PaymentForm || signals[i].code == ExternalForm ||
       signals[i].code == RecoveryRequest)
  }

  /** A signal of weight 0.3 or more that is not the model's own. */
  predicate Supported(signals: seq<Signal>) {
    exists i :: 0 <= i < |signals| && signals[i].weight >= 0.3 && !signals[i].fromModel
  }

  lemma CodesSpelled(signals: seq<Signal>)
    ensures Conclusive(signals) <==> Settled(signals)
    ensures Independent(signals) <==> Supported(signals)
    ensures Sensitive(signals) <==> Asks(signals)
  {
    forall i | 0 <= i < |signals|
      ensures Has(signals, signals[i].code)
    {
    }
  }

  /** When each of the three verdicts is given: a settling code, an accusation that something
      independent supports, or a score of 0.86; a rule risk below 0.18 that the model clears or
      that no model was asked about; and in every other case review. */
  lemma WhenEachVerdict(signals: seq<Signal>, given: Model)
    ensures var d := Decide(signals, given);
      && (d.verdict == Phishing <==>
            Settled(signals) || (Accused(given) && Supported(signals)) || d.riskScore >= 0.86)
      && (d.verdict == Safe <==>
            d.verdict != Phishing && Risk(signals) < 0.18 && (Cleared(given) || given == NoClassifier))
      && (d.requiresReview <==> d.verdict == Review)
  {
    CodesSpelled(signals);
    ClampKeepsThresholds(given);
  }

  lemma ClampKeepsThresholds(given: Model)
    ensures Accuses(NormalizeModel(given)) <==> Accused(given)
    ensures Clears(NormalizeModel(given)) <==> Cleared(given)
  {
  }

  /** What the user is shown: a review of a page that asks for secrets is shown as phishing, and
      the page freezes exactly when phishing is what is shown. */
  lemma WhatIsShown(signals: seq<Signal>, given: Model)
    ensures var d := Decide(signals, given);
      && (d.visible == Phishing <==> d.verdict == Phishing || (d.verdict == Review && Asks(signals)))
      && (d.visible == Safe <==> d.verdict == Safe)
      && (d.pause <==> d.visible == Phishing)
  {
    CodesSpelled(signals);
  }

  /** The score is the rule risk, which an accusation raises by up to 0.55 of what is missing;
      the confidence is the score, or the model's own when it agrees and is surer. */
  lemma ScoreAndConfidence(signals: seq<Signal>, given: Model)
    ensures var d, risk := Decide(signals, given), Risk(signals);
      && (!Accused(given) ==> d.riskScore == risk)
      && (Accused(given) ==> d.riskScore == risk + (1.0 - risk) * (0.55 * RMin(1.0, given.opinion.confidence)))
      && d.confidence == if given.Answer? && given.opinion.verdict == d.verdict
                         then RMax(d.riskScore, Clamp(given.opinion.confidence)) else d.riskScore
  {
    SurvivalInUnit(signals);
    JudgeScores(Conclusive(signals), Independent(signals), Sensitive(signals), Risk(signals), given);
  }

  lemma JudgeScores(conclusive: bool, independent: bool, sensitive: bool, risk: real, given: Model)
    requires 0.0 <= risk <= 1.0
    ensures var d := Judge(conclusive, independent, sensitive, risk, given);
      && (!Accused(given) ==> d.riskScore == risk)
      && (Accused(given) ==> d.riskScore == risk + (1.0 - risk) * (0.55 * RMin(1.0, given.opinion.confidence)))
      && d.confidence == if given.Answer? && given.opinion.verdict == d.verdict
                         then RMax(d.riskScore, Clamp(given.opinion.confidence)) else d.riskScore
  {
    var model := NormalizeModel(given);
    var share := if Accuses(model) then model.confidence * 0.55 else 0.0;
    ClampKeepsThresholds(given);
    Raised(risk, share, Judge(conclusive, independent, sensitive, risk, given).riskScore);
    assert Accused(given) ==> share == 0.55 * RMin(1.0, given.opinion.confidence);
  }

  lemma Raised(risk: real, share: real, score: real)
    requires 0.0 <= risk <= 1.0 && 0.0 <= share && score == 1.0 - (1.0 - risk) * (1.0 - share)
    ensures score == risk + (1.0 - risk) * share && score >= risk
  {
    assert (1.0 - risk) * share >= 0.0;
  }

  // ---- the signals of a page ----

  /** A signal a page is charged with, by its code, its weight and what must have been found. */
  ghost predicate Charged(packet: Packet, x: Signal) {
    var forms := packet.forms[..Min(32, |packet.forms|)];
    && !x.fromModel
    && match x.code
      case LocalOrigin => packet.local && x.weight == 0.0
      case KnownThreat => packet.known && x.weight == 1.0
      case Punycode => packet.punycode && x.weight == 0.36
      case RedirectChain => packet.redirects >= 4 && x.weight == RMin(0.3, 0.04 * packet.redirects as real)
      case Urgency => packet.urgent && x.weight == 0.18
      case RecoveryRequest => packet.recovery && x.weight == 0.9
      case Injection => packet.injection && x.weight == 0.42
      case BrandMismatch => packet.mismatch && x.weight == 0.62
      case ExternalForm => (exists f :: f in forms && f.sensitiveElsewhere) && x.weight == 0.94
      case PasswordForm => (exists f :: f in forms && f.password) && x.weight == 0.08
      case PaymentForm => (exists f :: f in forms && f.payment) && x.weight == 0.12
  }

  ghost predicate FormCharged(form: Form, x: Signal) {
    || (form.sensitiveElsewhere && x == Signal(ExternalForm, 0.94, false))
    || (form.password && x == Signal(PasswordForm, 0.08, false))
    || (form.payment && x == Signal(PaymentForm, 0.12, false))
  }

  lemma {:induction false} FormsCharge(forms: seq<Form>, x: Signal)
    ensures x in AllFormSignals(forms) <==> exists form :: form in forms && FormCharged(form, x)
  {
    if forms != [] {
      var n := |forms| - 1;
      assert forms == forms[..n] + [forms[n]];
      FormsCharge(forms[..n], x);
      assert x in FormSignals(forms[n]) <==> FormCharged(forms[n], x);
    }
  }

  predicate UrlCharged(packet: Packet, x: Signal) {
    || (packet.local && x == Signal(LocalOrigin, 0.0, false))
    || (packet.known && x == Signal(KnownThreat, 1.0, false))
    || (packet.punycode && x == Signal(Punycode, 0.36, false))
    || (packet.redirects >= 4 && x == Signal(RedirectChain, RMin(0.3, 0.04 * packet.redirects as real), false))
  }

  predicate ContentCharged(packet: Packet, x: Signal) {
    || (packet.urgent && x == Signal(Urgency, 0.18, false))
    || (packet.recovery && x == Signal(RecoveryRequest, 0.9, false))
    || (packet.injection && x == Signal(Injection, 0.42, false))
    || (packet.mismatch && x == Signal(BrandMismatch, 0.62, false))
  }

  lemma PageCharges(packet: Packet, x: Signal)
    ensures x in PageSignals(packet) <==> UrlCharged(packet, x) || ContentCharged(packet, x)
  {
    assert x in UrlSignals(packet) <==> UrlCharged(packet, x);
    assert x in ContentSignals(packet) <==> ContentCharged(packet, x);
  }

  /** A page is charged with exactly these signals. */
  lemma SignalsCharged(packet: Packet, x: Signal)
    ensures x in Collected(packet) <==> Charged(packet, x)
  {
    var forms := packet.forms[..Min(32, |packet.forms|)];
    assert Take(packet.forms, FORM_LIMIT) == forms;
    PageCharges(packet, x);
    FormsCharge(forms, x);
    ChargedSplits(packet, forms, x);
    assert x in Collected(packet) <==> x in PageSignals(packet) || x in AllFormSignals(forms);
  }

  lemma ChargedSplits(packet: Packet, forms: seq<Form>, x: Signal)
    requires forms == packet.forms[..Min(32, |packet.forms|)]
    ensures Charged(packet, x) <==>
      UrlCharged(packet, x) || ContentCharged(packet, x) || exists form :: form in forms && FormCharged(form, x)
  {
    if form :| form in forms && FormCharged(form, x) {
    }
  }

  // ---- the rule risk of a page ----

  /** What a thing found, or not, leaves of a chance that the page is harmless. */
  function Left(chance: real, found: bool, weight: real): real { if found then chance * (1.0 - weight) else chance }

  function AfterUrl(packet: Packet): real {
    Left(Left(Left(1.0, packet.known, 1.0), packet.punycode, 0.36),
         packet.redirects >= 4, RMin(0.3, 0.04 * packet.redirects as real))
  }

  function AfterContent(packet: Packet, chance: real): real {
    Left(Left(Left(Left(chance, packet.urgent, 0.18), packet.recovery, 0.9), packet.injection, 0.42),
         packet.mismatch, 0.62)
  }

  function AfterForm(form: Form, chance: real): real {
    Left(Left(Left(chance, form.sensitiveElsewhere, 0.94), form.password, 0.08), form.payment, 0.12)
  }

  function AfterForms(forms: seq<Form>, chance: real): real {
    if forms == [] then chance else AfterForm(forms[|forms| - 1], AfterForms(forms[..|forms| - 1], chance))
  }

  /** The one thing about a chance of survival that the page's own is computed from. */
  ghost predicate Weighs(survival: seq<Signal> -> real) {
    survival([]) == 1.0 &&
    forall before, found, code, weight :: 0.0 <= weight <= 1.0 ==>
      survival(before + When(found, code, weight)) == Left(survival(before), found, weight)
  }

  lemma SurvivalWeighs(survival: seq<Signal> -> real)
    requires survival == (signals => Survival(signals))
    ensures Weighs(survival)
  {
    forall before, found, code, weight | 0.0 <= weight <= 1.0
      ensures survival(before + When(found, code, weight)) == Left(survival(before), found, weight)
    {
      WhenSurvives(before, found, code, weight);
    }
  }

  lemma UrlSurvives(packet: Packet, survival: seq<Signal> -> real)
    requires Weighs(survival)
    ensures survival(UrlSignals(packet)) == AfterUrl(packet)
  {
    var a, b := When(packet.local, LocalOrigin, 0.0), When(packet.known, KnownThreat, 1.0);
    var c := When(packet.punycode, Punycode, 0.36);
    var d := When(packet.redirects >= 4, RedirectChain, RedirectWeight(packet.redirects));
    assert [] + a == a && packet.redirects < 4 ==> d == [];
    assert survival([] + a) == 1.0 && survival(a + b) == Left(1.0, packet.known, 1.0);
    assert survival(a + b + c) == Left(Left(1.0, packet.known, 1.0), packet.punycode, 0.36);
    if packet.redirects < 4 {
      assert UrlSignals(packet) == a + b + c;
    }
  }

  lemma ContentSurvives(packet: Packet, before: seq<Signal>, survival: seq<Signal> -> real)
    requires Weighs(survival)
    ensures survival(before + ContentSignals(packet)) == AfterContent(packet, survival(before))
  {
    var a, b := When(packet.urgent, Urgency, 0.18), When(packet.recovery, RecoveryRequest, 0.9);
    var c, d := When(packet.injection, Injection, 0.42), When(packet.mismatch, BrandMismatch, 0.62);
    assert before + ContentSignals(packet) == before + a + b + c + d;
    assert survival(before + a) == Left(survival(before), packet.urgent, 0.18);
    assert survival(before + a + b) == Left(survival(before + a), packet.recovery, 0.9);
    assert survival(before + a + b + c) == Left(survival(before + a + b), packet.injection, 0.42);
  }

  lemma FormSurvives(form: Form, before: seq<Signal>, survival: seq<Signal> -> real)
    requires Weighs(survival)
    ensures survival(before + FormSignals(form)) == AfterForm(form, survival(before))
  {
    var a, b := When(form.sensitiveElsewhere, ExternalForm, 0.94), When(form.password, PasswordForm, 0.08);
    var c := When(form.payment, PaymentForm, 0.12);
    assert before + FormSignals(form) == before + a + b + c;
    assert survival(before + a) == Left(survival(before), form.sensitiveElsewhere, 0.94);
    assert survival(before + a + b) == Left(survival(before + a), form.password, 0.08);
  }

  lemma {:induction false} FormsSurvive(forms: seq<Form>, before: seq<Signal>, survival: seq<Signal> -> real)
    requires Weighs(survival)
    ensures survival(before + AllFormSignals(forms)) == AfterForms(forms, survival(before))
  {
    if forms == [] {
      assert before + AllFormSignals(forms) == before;
    } else {
      var n := |forms| - 1;
      FormsSurvive(forms[..n], before, survival);
      assert before + AllFormSignals(forms) == (before + AllFormSignals(forms[..n])) + FormSignals(forms[n]);
      FormSurvives(forms[n], before + AllFormSignals(forms[..n]), survival);
    }
  }

  /** The rule risk of a page: each thing found leaves its share of the chance that the page is
      harmless, once for the page and once for each of the first 32 forms. */
  lemma RiskOfPage(packet: Packet)
    ensures Risk(Collected(packet))
         == 1.0 - AfterForms(packet.forms[..Min(32, |packet.forms|)], AfterContent(packet, AfterUrl(packet)))
  {
    var forms := packet.forms[..Min(32, |packet.forms|)];
    var survival := signals => Survival(signals);
    assert Take(packet.forms, FORM_LIMIT) == forms;
    SurvivalWeighs(survival);
    UrlSurvives(packet, survival);
    ContentSurvives(packet, UrlSignals(packet), survival);
    FormsSurvive(forms, PageSignals(packet), survival);
    assert Survival(Collected(packet)) == survival(PageSignals(packet) + AllFormSignals(forms));
  }
}
