/** A typed phone number as one canonical E.164 string. */
module WhatsappPhone {
  import opened Options
  import opened Text

  // --- numbering plans ----------------------------------------------------------------

  /** A country's mobile plan: its code, its national length and how a mobile number starts. */
  datatype Plan = Plan(code: string, length: nat, mobile: set<char>)

  const SA := Plan("966", 9, {'5'})
  const AE := Plan("971", 9, {'5'})
  const KW := Plan("965", 8, {'5', '6', '9'})
  const QA := Plan("974", 8, {'3', '5', '6', '7'})
  const BH := Plan("973", 8, {'3', '6'})
  const OM := Plan("968", 8, {'7', '9'})
  const EG := Plan("20", 10, {'1'})
  const JO := Plan("962", 9, {'7'})

  function PlanOf(country: string): Option<Plan> {
    match country
    case "SA" => Some(SA) case "AE" => Some(AE) case "KW" => Some(KW) case "QA" => Some(QA)
    case "BH" => Some(BH) case "OM" => Some(OM) case "EG" => Some(EG) case "JO" => Some(JO)
    case _ => None
  }

  const PLANS := 8

  /** The plans in the order they are tried: longest code first. */
  function ByCode(i: nat): Plan
    requires i < PLANS
  {
    match i
    case 0 => SA case 1 => AE case 2 => KW case 3 => QA
    case 4 => BH case 5 => OM case 6 => JO case _ => EG
  }

  ghost predicate IsPlan(plan: Plan) {
    exists i: nat :: i < PLANS && ByCode(i) == plan
  }

  lemma CountriesHavePlans(country: string)
    ensures PlanOf(country).Some? ==> IsPlan(PlanOf(country).value)
  {
    assert ByCode(0) == SA && ByCode(1) == AE && ByCode(2) == KW && ByCode(3) == QA;
    assert ByCode(4) == BH && ByCode(5) == OM && ByCode(6) == JO && ByCode(7) == EG;
  }

  /** The first plan, from the `i`th on, whose code starts the digits. */
  function FindByCode(digits: string, i: nat): Option<Plan>
    requires i <= PLANS
    decreases PLANS - i
  {
    if i == PLANS then None
    else if ByCode(i).code <= digits then Some(ByCode(i))
    else FindByCode(digits, i + 1)
  }

  /** The same for a number that is also exactly as long as its plan says. */
  function FindExact(digits: string, i: nat): Option<Plan>
    requires i <= PLANS
    decreases PLANS - i
  {
    if i == PLANS then None
    else if ByCode(i).code <= digits && |digits| == |ByCode(i).code| + ByCode(i).length then Some(ByCode(i))
    else FindExact(digits, i + 1)
  }

  // --- text -----------------------------------------------------------------------------

  predicate IsDigit(c: char) { '0' <= c <= '9' }

  predicate AllDigits(s: string) { forall i :: 0 <= i < |s| ==> IsDigit(s[i]) }

  predicate IsSeparator(c: char) {
    IsSpace(c) || c in {'-', '.', '(', ')', '/'}
  }

  function Unsigned(text: string): string {
    if text != "" && text[0] == '+' then text[1..] else text
  }

  /** An optional plus, then digits and separators and nothing else. */
  predicate IsNumberText(text: string) {
    var body := Unsigned(text);
    body != "" && forall i :: 0 <= i < |body| ==> IsDigit(body[i]) || IsSeparator(body[i])
  }

  function DigitsOf(s: string): string {
    if s == "" then "" else if IsDigit(s[0]) then [s[0]] + DigitsOf(s[1..]) else DigitsOf(s[1..])
  }

  // --- normalising ------------------------------------------------------------------------

  function WithoutTrunkZero(s: string): string {
    if s != "" && s[0] == '0' then s[1..] else s
  }

  predicate IsMobile(plan: Plan, national: string) {
    |national| == plan.length && national != "" && national[0] in plan.mobile
  }

  function CheckInternational(digits: string): Option<string> {
    match FindByCode(digits, 0)
    case Some(plan) =>
      var national := WithoutTrunkZero(digits[|plan.code|..]);
      if IsMobile(plan, national) then Some("+" + plan.code + national) else None
    case None =>
      if 8 <= |digits| <= 15 && '1' <= digits[0] <= '9' && AllDigits(digits) then Some("+" + digits) else None
  }

  /** What decides, once the text is known to be a number: the plus, the digits and the country. */
  function FromDigits(plus: bool, digits: string, country: Option<string>): Option<string> {
    if plus then CheckInternational(digits)
    else if "00" <= digits then CheckInternational(digits[2..])
    else
      match (if country.Some? then PlanOf(country.value) else None)
      case Some(plan) =>
        if plan.code <= digits && |digits| == |plan.code| + plan.length then CheckInternational(digits)
        else CheckInternational(plan.code + WithoutTrunkZero(digits))
      case None =>
        if FindExact(digits, 0).Some? then CheckInternational(digits) else None
  }

  /** `country` is the selected country, upper-cased. */
  function NormalizeWhatsappPhone(raw: string, country: Option<string>): Option<string> {
    var text := Trim(LatinDigits(raw));
    if text == "" || !IsNumberText(text) then None
    else FromDigits(text[0] == '+', DigitsOf(text), country)
  }

  // --- results are E.164 --------------------------------------------------------------------

  /** Section 6 of ITU-T E.164 with this store's floor: a plus, no leading zero, eight to fifteen digits. */
  predicate IsE164(s: string) {
    9 <= |s| <= 16 && s[0] == '+' && '1' <= s[1] <= '9' && AllDigits(s[1..])
  }

  /** No country code starts another. */
  lemma CodesApart(i: nat, j: nat, digits: string)
    requires i < PLANS && j < PLANS && ByCode(i).code <= digits && ByCode(j).code <= digits
    ensures i == j
  {
    var c, d := ByCode(i).code, ByCode(j).code;
    assert c == digits[..|c|] && d == digits[..|d|];
    assert c[0] == digits[0] && c[1] == digits[1] && d[0] == digits[0] && d[1] == digits[1];
    if |c| == 3 && |d| == 3 { assert c[2] == digits[2] && d[2] == digits[2]; }
  }

  lemma {:induction false} FindByCodeFrom(digits: string, i: nat, k: nat)
    requires i <= k < PLANS && ByCode(k).code <= digits
    ensures FindByCode(digits, i) == Some(ByCode(k))
    decreases k - i
  {
    if ByCode(i).code <= digits {
      CodesApart(i, k, digits);
    } else {
      FindByCodeFrom(digits, i + 1, k);
    }
  }

  lemma {:induction false} FindExactFrom(digits: string, i: nat, k: nat)
    requires i <= k < PLANS && ByCode(k).code <= digits
    requires |digits| == |ByCode(k).code| + ByCode(k).length
    ensures FindExact(digits, i) == Some(ByCode(k))
    decreases k - i
  {
    if i < k {
      if ByCode(i).code <= digits { CodesApart(i, k, digits); }
      FindExactFrom(digits, i + 1, k);
    }
  }

  lemma {:induction false} FoundByCode(digits: string, i: nat)
    requires i <= PLANS
    ensures FindByCode(digits, i).Some? ==>
      IsPlan(FindByCode(digits, i).value) && FindByCode(digits, i).value.code <= digits
    decreases PLANS - i
  {
    if i < PLANS && !(ByCode(i).code <= digits) { FoundByCode(digits, i + 1); }
  }

  /** A number has at most one plan: the one whose code it starts with. */
  lemma OnePlan(plan: Plan, digits: string)
    requires IsPlan(plan) && plan.code <= digits
    ensures FindByCode(digits, 0) == Some(plan)
    ensures |digits| == |plan.code| + plan.length ==> FindExact(digits, 0) == Some(plan)
  {
    var k: nat :| k < PLANS && ByCode(k) == plan;
    FindByCodeFrom(digits, 0, k);
    if |digits| == |plan.code| + plan.length { FindExactFrom(digits, 0, k); }
  }

  lemma PlanShape(plan: Plan)
    requires IsPlan(plan)
    ensures 2 <= |plan.code| <= 3 && 8 <= plan.length <= 10 && |plan.code| + plan.length in {11, 12}
    ensures AllDigits(plan.code) && plan.code[0] in {'2', '9'}
    ensures forall c :: c in plan.mobile ==> '1' <= c <= '9'
  {
  }

  /** A full number of a known plan normalises to itself, with or without its trunk zero. */
  lemma CheckPlan(plan: Plan, national: string)
    requires IsPlan(plan) && IsMobile(plan, national)
    ensures CheckInternational(plan.code + national) == Some("+" + plan.code + national)
    ensures CheckInternational(plan.code + "0" + national) == Some("+" + plan.code + national)
  {
    PlanShape(plan);
    var d, z := plan.code + national, plan.code + ("0" + national);
    assert plan.code + "0" + national == z;
    OnePlan(plan, d);
    OnePlan(plan, z);
    assert d[|plan.code|..] == national && z[|plan.code|..] == "0" + national;
    assert ("0" + national)[1..] == national;
  }

  predicate IsCanonical(r: string) {
    IsE164(r) && CheckInternational(r[1..]) == Some(r)
  }

  lemma PlanIsE164(plan: Plan, national: string)
    requires IsPlan(plan) && IsMobile(plan, national) && AllDigits(national)
    ensures IsE164("+" + plan.code + national)
    ensures ("+" + plan.code + national)[1..] == plan.code + national
  {
    PlanShape(plan);
    var r := "+" + plan.code + national;
    assert r[1..] == plan.code + national;
    assert r[1] == plan.code[0];
  }

  lemma PlanIsCanonical(plan: Plan, national: string)
    requires IsPlan(plan) && IsMobile(plan, national) && AllDigits(national)
    ensures IsCanonical("+" + plan.code + national)
  {
    PlanIsE164(plan, national);
    CheckPlan(plan, national);
  }

  /** Whatever the digits, an accepted number is E.164 and is accepted again as it stands. */
  lemma CheckIsCanonical(digits: string)
    requires AllDigits(digits)
    ensures CheckInternational(digits).Some? ==> IsCanonical(CheckInternational(digits).value)
  {
    FoundByCode(digits, 0);
    match FindByCode(digits, 0)
    case Some(plan) =>
      var rest := digits[|plan.code|..];
      assert forall i :: 0 <= i < |rest| ==> rest[i] == digits[|plan.code| + i];
      var national := WithoutTrunkZero(rest);
      if IsMobile(plan, national) { PlanIsCanonical(plan, national); }
    case None =>
      assert ("+" + digits)[1..] == digits;
  }

  lemma FromDigitsCanonical(plus: bool, digits: string, country: Option<string>)
    requires AllDigits(digits)
    ensures FromDigits(plus, digits, country).Some? ==> IsCanonical(FromDigits(plus, digits, country).value)
  {
    CheckIsCanonical(digits);
    if "00" <= digits { CheckIsCanonical(digits[2..]); }
    if country.Some? && PlanOf(country.value).Some? {
      var plan := PlanOf(country.value).value;
      CountriesHavePlans(country.value);
      PlanShape(plan);
      CheckIsCanonical(plan.code + WithoutTrunkZero(digits));
    }
  }

  // --- the text around the digits --------------------------------------------------------------

  lemma {:induction false} DigitsOfAppend(a: string, b: string)
    ensures DigitsOf(a + b) == DigitsOf(a) + DigitsOf(b)
  {
    if a == "" {
      assert a + b == b;
    } else {
      assert (a + b)[0] == a[0] && (a + b)[1..] == a[1..] + b;
      DigitsOfAppend(a[1..], b);
    }
  }

  lemma {:induction false} DigitsOfAre(s: string)
    ensures AllDigits(DigitsOf(s))
    ensures AllDigits(s) ==> DigitsOf(s) == s
    ensures (forall i :: 0 <= i < |s| ==> !IsDigit(s[i])) ==> DigitsOf(s) == ""
  {
    if s != "" { DigitsOfAre(s[1..]); }
  }

  /** Trimming takes no digit away. */
  lemma TrimKeepsDigits(s: string)
    ensures DigitsOf(Trim(s)) == DigitsOf(s)
  {
    var lead, tail := TrimSplits(s);
    DigitsOfAppend(lead + Trim(s), tail);
    DigitsOfAppend(lead, Trim(s));
    DigitsOfAre(lead);
    DigitsOfAre(tail);
  }

  predicate IsWritten(raw: string, plus: bool, lead: string, body: string) {
    && raw == lead + ((if plus then "+" else "") + body)
    && AllSpace(lead)
    && (forall i :: 0 <= i < |body| ==> IsDigit(LatinDigit(body[i])) || IsSeparator(body[i]))
  }

  /**
   * A way of writing a number by hand: spaces, perhaps a plus, then digits of
   * any of the three scripts among separators. `digits` is what they spell.
   */
  ghost predicate Spells(raw: string, plus: bool, digits: string) {
    digits != "" && exists lead, body :: IsWritten(raw, plus, lead, body) && DigitsOf(LatinDigits(body)) == digits
  }

  lemma LatinKeepsSpace(c: char)
    ensures IsSpace(LatinDigit(c)) <==> IsSpace(c)
    ensures IsSeparator(c) ==> LatinDigit(c) == c
    ensures IsSpace(c) ==> !IsDigit(c)
  {
  }

  lemma {:induction false} SpacesLatin(lead: string)
    requires AllSpace(lead)
    ensures AllSpace(LatinDigits(lead)) && DigitsOf(LatinDigits(lead)) == ""
  {
    var front := LatinDigits(lead);
    forall i | 0 <= i < |front| ensures IsSpace(front[i]) && !IsDigit(front[i]) {
      LatinKeepsSpace(lead[i]);
      LatinKeepsSpace(front[i]);
    }
    DigitsOfAre(front);
  }

  lemma LatinAppend(a: string, b: string)
    ensures LatinDigits(a + b) == LatinDigits(a) + LatinDigits(b)
  {
  }

  predicate IsBody(latin: string) {
    forall i :: 0 <= i < |latin| ==> IsDigit(latin[i]) || IsSeparator(latin[i])
  }

  /** The body of a written number in Latin digits. */
  lemma BodyLatin(body: string)
    requires forall i :: 0 <= i < |body| ==> IsDigit(LatinDigit(body[i])) || IsSeparator(body[i])
    ensures IsBody(LatinDigits(body))
  {
    var latin := LatinDigits(body);
    forall i | 0 <= i < |latin| ensures IsDigit(latin[i]) || IsSeparator(latin[i]) {
      LatinKeepsSpace(body[i]);
    }
  }

  /** What the check on a typed number asks of its trimmed text. */
  predicate IsSpelled(text: string, plus: bool, digits: string) {
    text != "" && IsNumberText(text) && (text[0] == '+' <==> plus) && DigitsOf(text) == digits
  }

  /** Trimming leaves a leading plus where it is. */
  lemma SpelledSigned(latin: string)
    requires IsBody(latin) && DigitsOf(latin) != ""
    ensures IsSpelled(Trim("+" + latin), true, DigitsOf(latin))
  {
    var signed := "+" + latin;
    var text := Trim(signed);
    TrimKeepsHead(signed);
    TrimKeepsDigits(signed);
    DigitsOfAppend("+", latin);
    DigitsOfAppend("+", text[1..]);
    DigitsOfAre("+");
    assert text == "+" + text[1..] && text[1..] != "";
    SignedTrim(latin);
  }

  lemma SignedTrim(latin: string)
    requires Trim("+" + latin) != ""
    ensures Trim("+" + latin)[1..] <= latin
  {
    var signed := "+" + latin;
    assert signed[0] == '+' && TrimStart(signed) == signed;
    var text := Trim(signed);
    var tail := TrimEndSplits(signed);
    assert signed == text + tail;
    assert latin == signed[1..] == text[1..] + tail;
  }

  /** Trimming leaves a piece of the body. */
  lemma SpelledUnsigned(latin: string)
    requires IsBody(latin) && DigitsOf(latin) != ""
    ensures IsSpelled(Trim(latin), false, DigitsOf(latin))
  {
    TrimTakes(latin);
    TrimKeepsDigits(latin);
    var text := Trim(latin);
    forall i | 0 <= i < |text| ensures (IsDigit(text[i]) || IsSeparator(text[i])) && text[i] != '+' {
      var k :| 0 <= k < |latin| && latin[k] == text[i];
    }
  }

  lemma SpelledText(raw: string, plus: bool, digits: string)
    requires Spells(raw, plus, digits)
    ensures IsSpelled(Trim(LatinDigits(raw)), plus, digits)
  {
    var lead, body :| IsWritten(raw, plus, lead, body) && DigitsOf(LatinDigits(body)) == digits;
    var sign := if plus then "+" else "";
    SpacesLatin(lead);
    BodyLatin(body);
    LatinAppend(lead, sign + body);
    LatinAppend(sign, body);
    assert LatinDigits(sign) == sign;
    TrimAfterLead(LatinDigits(lead), LatinDigits(sign + body));
    if plus {
      SpelledSigned(LatinDigits(body));
    } else {
      assert sign + LatinDigits(body) == LatinDigits(body);
      SpelledUnsigned(LatinDigits(body));
    }
  }

  /** Only the plus and the digits of a written number count. */
  lemma SpellingIsAllThatCounts(raw: string, plus: bool, digits: string, country: Option<string>)
    requires Spells(raw, plus, digits)
    ensures NormalizeWhatsappPhone(raw, country) == FromDigits(plus, digits, country)
  {
    SpelledText(raw, plus, digits);
  }

  lemma SpellsItself(digits: string)
    requires AllDigits(digits) && digits != ""
    ensures Spells("+" + digits, true, digits)
  {
    DigitsOfAre(digits);
    assert LatinDigits(digits) == digits;
    assert "+" + digits == "" + ("+" + digits);
    assert IsWritten("+" + digits, true, "", digits);
  }

  // --- the promises -----------------------------------------------------------------------------

  lemma CanonicalReads(r: string, other: Option<string>)
    requires IsCanonical(r)
    ensures NormalizeWhatsappPhone(r, other) == Some(r)
  {
    assert r == "+" + r[1..];
    SpellsItself(r[1..]);
    SpellingIsAllThatCounts(r, true, r[1..], other);
  }

  /** Any number that is accepted is E.164, and typing the answer back in gives it again, under every country. */
  lemma NormalizedIsCanonical(raw: string, country: Option<string>, other: Option<string>)
    ensures match NormalizeWhatsappPhone(raw, country)
            case Some(r) => IsE164(r) && NormalizeWhatsappPhone(r, other) == Some(r)
            case None => true
  {
    var text := Trim(LatinDigits(raw));
    if NormalizeWhatsappPhone(raw, country).Some? {
      DigitsOfAre(text);
      FromDigitsCanonical(text[0] == '+', DigitsOf(text), country);
      CanonicalReads(NormalizeWhatsappPhone(raw, country).value, other);
    }
  }

  /** The ways people write one number: what is typed, and whether the country has to be selected. */
  datatype Form = Local | TrunkZero | BareCode | Plus | PlusZero | DoubleZero | DoubleZeroZero

  function DigitsIn(form: Form, plan: Plan, national: string): string {
    match form
    case Local => national
    case TrunkZero => "0" + national
    case BareCode => plan.code + national
    case Plus => plan.code + national
    case PlusZero => plan.code + "0" + national
    case DoubleZero => "00" + (plan.code + national)
    case DoubleZeroZero => "00" + (plan.code + "0" + national)
  }

  predicate HasPlus(form: Form) { form.Plus? || form.PlusZero? }

  /** Local forms are read against the selected country; a bare code also against none. */
  predicate Readable(form: Form, country: string, selected: Option<string>) {
    match form
    case Local => selected == Some(country)
    case TrunkZero => selected == Some(country)
    case BareCode => selected == Some(country) || selected.None?
    case _ => true
  }

  lemma FormAgrees(form: Form, country: string, national: string, selected: Option<string>)
    requires PlanOf(country).Some? && IsMobile(PlanOf(country).value, national) && AllDigits(national)
    requires Readable(form, country, selected)
    ensures var plan := PlanOf(country).value;
            FromDigits(HasPlus(form), DigitsIn(form, plan, national), selected) == Some("+" + plan.code + national)
  {
    var plan := PlanOf(country).value;
    var d := DigitsIn(form, plan, national);
    CountriesHavePlans(country);
    PlanShape(plan);
    CheckPlan(plan, national);
    match form
    case Local =>
      assert d[0] == national[0];
    case TrunkZero =>
      assert d[0] == '0' && d[1] == national[0] && d[1..] == national;
    case BareCode =>
      assert d[0] == plan.code[0];
      OnePlan(plan, d);
    case DoubleZero =>
      assert d[2..] == plan.code + national;
    case DoubleZeroZero =>
      assert d[2..] == plan.code + "0" + national;
    case _ =>
  }

  /**
   * One mobile number of a known country, written in any of these forms, in any
   * digits, with any separators and spaces, is always the same string.
   */
  lemma SpellingsAgree(form: Form, country: string, national: string, selected: Option<string>, raw: string)
    requires PlanOf(country).Some? && IsMobile(PlanOf(country).value, national) && AllDigits(national)
    requires Readable(form, country, selected)
    requires Spells(raw, HasPlus(form), DigitsIn(form, PlanOf(country).value, national))
    ensures NormalizeWhatsappPhone(raw, selected) == Some("+" + PlanOf(country).value.code + national)
  {
    SpellingIsAllThatCounts(raw, HasPlus(form), DigitsIn(form, PlanOf(country).value, national), selected);
    FormAgrees(form, country, national, selected);
  }

  // --- what is refused, and what is accepted of other countries ---------------------------------

  /** The eight countries, each with its code, the length of its numbers and how a mobile one starts. */
  lemma CountriesAre()
    ensures PlanOf("SA") == Some(Plan("966", 9, {'5'})) && PlanOf("AE") == Some(Plan("971", 9, {'5'}))
    ensures PlanOf("KW") == Some(Plan("965", 8, {'5', '6', '9'})) && PlanOf("QA") == Some(Plan("974", 8, {'3', '5', '6', '7'}))
    ensures PlanOf("BH") == Some(Plan("973", 8, {'3', '6'})) && PlanOf("OM") == Some(Plan("968", 8, {'7', '9'}))
    ensures PlanOf("EG") == Some(Plan("20", 10, {'1'})) && PlanOf("JO") == Some(Plan("962", 9, {'7'}))
  {
  }

  /** None of the eight codes starts the digits. */
  predicate IsForeign(digits: string) {
    && !("966" <= digits) && !("971" <= digits) && !("965" <= digits) && !("974" <= digits)
    && !("973" <= digits) && !("968" <= digits) && !("20" <= digits) && !("962" <= digits)
  }

  lemma {:induction false} ForeignHasNoPlan(digits: string, i: nat)
    requires IsForeign(digits) && i <= PLANS
    ensures FindByCode(digits, i).None?
    decreases PLANS - i
  {
    if i < PLANS {
      ForeignHasNoPlan(digits, i + 1);
    }
  }

  /** A number of any other country goes through as it stands exactly when it has eight to fifteen digits and no zero in front. */
  lemma ForeignNumber(digits: string, country: Option<string>)
    requires AllDigits(digits) && digits != "" && IsForeign(digits)
    ensures NormalizeWhatsappPhone("+" + digits, country) ==
      if 8 <= |digits| <= 15 && digits[0] != '0' then Some("+" + digits) else None
  {
    ForeignCheck(digits);
    SpellsItself(digits);
    SpellingIsAllThatCounts("+" + digits, true, digits, country);
  }

  lemma ForeignCheck(digits: string)
    requires AllDigits(digits) && digits != "" && IsForeign(digits)
    ensures CheckInternational(digits) == if 8 <= |digits| <= 15 && digits[0] != '0' then Some("+" + digits) else None
  {
    ForeignHasNoPlan(digits, 0);
    assert IsDigit(digits[0]);
  }

  /** Of a known country only mobile numbers of the right length go through, with or without the trunk zero. */
  lemma OnlyMobiles(country: string, rest: string, selected: Option<string>)
    requires PlanOf(country).Some? && AllDigits(rest)
    ensures var plan := PlanOf(country).value;
            var national := if rest != "" && rest[0] == '0' then rest[1..] else rest;
            NormalizeWhatsappPhone("+" + plan.code + rest, selected) ==
              if |national| == plan.length && national[0] in plan.mobile then Some("+" + plan.code + national) else None
  {
    var plan := PlanOf(country).value;
    var digits := plan.code + rest;
    CountriesHavePlans(country);
    PlanShape(plan);
    OnePlan(plan, digits);
    SpellsItself(digits);
    assert "+" + digits == "+" + plan.code + rest && digits[|plan.code|..] == rest;
    SpellingIsAllThatCounts("+" + digits, true, digits, selected);
  }

  /** Without a country that is known, a number with its trunk zero is nobody's. */
  lemma LocalNeedsCountry(raw: string, digits: string, country: Option<string>)
    requires Spells(raw, false, digits) && digits[0] == '0' && (|digits| > 1 ==> digits[1] != '0')
    requires country.None? || country.value !in {"SA", "AE", "KW", "QA", "BH", "OM", "EG", "JO"}
    ensures NormalizeWhatsappPhone(raw, country).None?
  {
    SpellingIsAllThatCounts(raw, false, digits, country);
    NoCodeStartsWithZero(digits, 0);
  }

  lemma {:induction false} NoCodeStartsWithZero(digits: string, i: nat)
    requires digits != "" && digits[0] == '0' && i <= PLANS
    ensures FindExact(digits, i).None?
    decreases PLANS - i
  {
    if i < PLANS {
      NoCodeStartsWithZero(digits, i + 1);
      assert ByCode(i).code[0] != '0';
    }
  }

  /** What is no space stays between what trimming takes off. */
  lemma TrimmedPlace(latin: string, i: nat) returns (n: nat)
    requires i < |latin| && !IsSpace(latin[i])
    ensures n <= i < n + |Trim(latin)| && Trim(latin)[i - n] == latin[i]
    ensures forall k :: 0 <= k < n ==> k < |latin| && IsSpace(latin[k])
  {
    var front, tail := TrimSplits(latin);
    InTheMiddle(front, Trim(latin), tail, i);
    n := |front|;
    assert forall k :: 0 <= k < n ==> latin[k] == front[k];
  }

  lemma LatinOf(raw: string, i: nat)
    requires i < |raw|
    ensures IsSpace(LatinDigits(raw)[i]) <==> IsSpace(raw[i])
  {
    LatinKeepsSpace(raw[i]);
  }

  /** A letter anywhere and it is not a number. */
  lemma LettersAreRefused(raw: string, country: Option<string>, i: nat)
    requires i < |raw| && ('a' <= raw[i] <= 'z' || 'A' <= raw[i] <= 'Z')
    ensures NormalizeWhatsappPhone(raw, country).None?
  {
    LatinOf(raw, i);
    var n := TrimmedPlace(LatinDigits(raw), i);
    StrangerRefused(Trim(LatinDigits(raw)), i - n);
  }

  /** Nor is it with a plus anywhere but in front. */
  lemma LatePlusIsRefused(raw: string, country: Option<string>, j: nat, i: nat)
    requires j < i < |raw| && raw[i] == '+' && !IsSpace(raw[j])
    ensures NormalizeWhatsappPhone(raw, country).None?
  {
    LatinOf(raw, i);
    LatinOf(raw, j);
    var n := TrimmedPlace(LatinDigits(raw), i);
    StrangerRefused(Trim(LatinDigits(raw)), i - n);
  }

  lemma InTheMiddle(lead: string, text: string, tail: string, i: nat)
    requires AllSpace(lead) && AllSpace(tail) && i < |lead + text + tail| && !IsSpace((lead + text + tail)[i])
    ensures |lead| <= i < |lead| + |text|
  {
  }

  lemma StrangerRefused(text: string, k: nat)
    requires k < |text| && !IsDigit(text[k]) && !IsSeparator(text[k]) && (text[k] == '+' ==> k > 0)
    ensures !IsNumberText(text)
  {
    assert Unsigned(text)[if text[0] == '+' then k - 1 else k] == text[k];
  }
}
