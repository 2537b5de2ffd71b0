/**
 Worked examples of the matcher, proved as lemmas, on one watched person:
 phone normalisation, case-insensitive email comparison, the no-overlap case
 and the fixed comparison order.
 */
module Scenarios {
  import opened Wrappers
  import opened Text
  import opened Entries
  import opened Matcher

  /** Punctuation around the digit groups of a phone number is ignored. */
  lemma PhoneLayouts(a: string, b: string, c: string)
    requires AllDigits(a) && AllDigits(b) && AllDigits(c)
    ensures Digits("(" + a + ") " + b + "-" + c) == a + b + c
    ensures Digits(a + "-" + b + "-" + c) == a + b + c
  {
    DigitsOfDigits(a);
    DigitsOfDigits(b);
    DigitsOfDigits(c);
    var p1 := "(" + a;
    assert Digits(p1) == a by { DigitsConcat("(", a); }
    var p2 := p1 + ") ";
    assert Digits(p2) == a by { DigitsConcat(p1, ") "); assert Digits(") ") == ""; }
    var p3 := p2 + b;
    assert Digits(p3) == a + b by { DigitsConcat(p2, b); }
    var p4 := p3 + "-";
    assert Digits(p4) == a + b by { DigitsConcat(p3, "-"); }
    var p5 := p4 + c;
    assert Digits(p5) == a + b + c by { DigitsConcat(p4, c); }
    var q1 := a + "-";
    assert Digits(q1) == a by { DigitsConcat(a, "-"); }
    var q2 := q1 + b;
    assert Digits(q2) == a + b by { DigitsConcat(q1, b); }
    var q3 := q2 + "-";
    assert Digits(q3) == a + b by { DigitsConcat(q2, "-"); }
    var q4 := q3 + c;
    assert Digits(q4) == a + b + c by { DigitsConcat(q3, c); }
  }

  /** "(555) 123-4567" and "555-123-4567" normalise to the same ten digits. */
  lemma SameNumberTwoLayouts()
    ensures Digits("(555) 123-4567") == Digits("555-123-4567")
  {
    var a, b, c := "555", "123", "4567";
    assert AllDigits(a) && AllDigits(b) && AllDigits(c);
    PhoneLayouts(a, b, c);
    var parenthesised, dashed := "(" + a + ") " + b + "-" + c, a + "-" + b + "-" + c;
    assert parenthesised == "(555) 123-4567";
    assert dashed == "555-123-4567";
  }

  /** Jane's entry, with her phone number written as given. */
  function Jane(phone: string): Entry {
    Entry("Jane", "Doe", "1 Main St", "jane@x.com", phone, "Paid", Some(No))
  }

  /** A customer who shares neither name nor address with Jane, with the given email and phone. */
  function Stranger(email: string, phone: string): Contact {
    Contact("Mark", "Roe", "9 Elm Rd", email, phone)
  }

  /** The same contact fields on both sides of the order. */
  function BothSides(c: Contact): OrderContact {
    OrderContact(c, c)
  }

  /** The stranger's name and address never match Jane's entry, on either side. */
  lemma StrangerDiffers(email: string, orderPhone: string, entryPhone: string)
    ensures var order, e := BothSides(Stranger(email, orderPhone)), Jane(entryPhone);
      && !FieldMatches(order, e, BillingName)
      && !FieldMatches(order, e, BillingAddress)
      && !FieldMatches(order, e, ShippingName)
      && !FieldMatches(order, e, ShippingAddress)
  {
    assert FullName("Mark", "Roe")[0] == 'M';
    assert FullName("Jane", "Doe")[0] == 'J';
  }

  /**
   Only the phone overlaps, written "(AAA) BBB-CCCC" on the order and
   "AAA-BBB-CCCC" on the entry: the order is held on the billing phone.
   */
  lemma FormattedPhoneHolds(a: string, b: string, c: string)
    requires AllDigits(a) && AllDigits(b) && AllDigits(c)
    ensures
      var order := BothSides(Stranger("mark@y.com", "(" + a + ") " + b + "-" + c));
      Evaluate(order, ListOf([Jane(a + "-" + b + "-" + c)])) == Hold(0, BillingPhone)
  {
    var order := BothSides(Stranger("mark@y.com", "(" + a + ") " + b + "-" + c));
    var e := Jane(a + "-" + b + "-" + c);
    StrangerDiffers("mark@y.com", "(" + a + ") " + b + "-" + c, a + "-" + b + "-" + c);
    assert FieldMatches(order, e, BillingPhone) by {
      PhoneLayouts(a, b, c);
      CaseEqEquivalence(a + b + c, a + b + c, a + b + c);
    }
    SingleEntryHolds(order, e, BillingPhone);
  }

  /** Upper-case and lower-case spellings of one address compare equal. */
  lemma UpperCaseEmail()
    ensures CaseEq("JANE@X.COM", "jane@x.com")
  {
    CaseEqIff("JANE@X.COM", "jane@x.com");
  }

  /**
   The email matches, spelled in any case (for instance "JANE@X.COM"), and
   name and address differ: the order is held on the billing email whatever
   the two phones are, since the email is tried before the phone.
   */
  lemma EmailInAnyCaseHolds(email: string, orderPhone: string, entryPhone: string)
    requires CaseEq(email, "jane@x.com")
    ensures Evaluate(BothSides(Stranger(email, orderPhone)), ListOf([Jane(entryPhone)])) == Hold(0, BillingEmail)
  {
    StrangerDiffers(email, orderPhone, entryPhone);
    SingleEntryHolds(BothSides(Stranger(email, orderPhone)), Jane(entryPhone), BillingEmail);
  }

  /** Nothing overlaps, the phones' digits included: the order is not held. */
  lemma NoOverlapPasses(orderPhone: string, entryPhone: string)
    requires !CaseEq(Digits(orderPhone), Digits(entryPhone))
    ensures Evaluate(BothSides(Stranger("mark@y.com", orderPhone)), ListOf([Jane(entryPhone)])) == NoMatch
  {
    var order := BothSides(Stranger("mark@y.com", orderPhone));
    var e := Jane(entryPhone);
    StrangerDiffers("mark@y.com", orderPhone, entryPhone);
    assert forall d :: !Fires(order, e, d);
    EvaluateNoMatchIff(order, [e]);
  }

  /** "jane DOE" and "Jane Doe" compare equal. */
  lemma MixedCaseName()
    ensures CaseEq(FullName("jane", "DOE"), FullName("Jane", "Doe"))
  {
    assert FullName("jane", "DOE") == "jane DOE";
    assert FullName("Jane", "Doe") == "Jane Doe";
    CaseEqIff("jane DOE", "Jane Doe");
  }

  /**
   Name and email both overlap (say "jane DOE" and "jane@x.com"): the billing
   name, tried first, is the reason reported.
   */
  lemma NameReportedBeforeEmail(first: string, last: string, email: string, phone: string)
    requires CaseEq(FullName(first, last), FullName("Jane", "Doe"))
    requires CaseEq(email, "jane@x.com")
    ensures Evaluate(BothSides(Contact(first, last, "9 Elm Rd", email, phone)), ListOf([Jane(phone)])) == Hold(0, BillingName)
  {
    var order := BothSides(Contact(first, last, "9 Elm Rd", email, phone));
    assert FieldMatches(order, Jane(phone), BillingEmail);
    SingleEntryHolds(order, Jane(phone), BillingName);
  }
}
