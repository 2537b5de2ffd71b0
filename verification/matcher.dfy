/**
 The match engine (`plk_chargeback_check`): given an order's billing and
 shipping contact fields and the stored block list, decide whether the order
 is put on hold, and by which entry and which comparison.

 The source's side effect, `plk_update_order_status('on-hold', ...)`, is the
 `Hold` outcome here; returning without a call is `NoMatch`.
 */
module Matcher {
  import opened Wrappers
  import opened Text
  import opened Entries

  /** The contact fields the order getters return for one side of an order. */
  datatype Contact = Contact(
    firstName: string,
    lastName: string,
    address1: string,
    email: string,
    phone: string)

  /** The read-only projection of an order the matcher looks at. */
  datatype OrderContact = OrderContact(billing: Contact, shipping: Contact)

  /** The eight comparisons the matcher makes against each entry. */
  datatype Check =
    | BillingName | BillingAddress | BillingEmail | BillingPhone
    | ShippingName | ShippingAddress | ShippingEmail | ShippingPhone

  /** The fixed order in which the comparisons are tried on each entry. */
  const CheckOrder: seq<Check> := [
    BillingName, BillingAddress, BillingEmail, BillingPhone,
    ShippingName, ShippingAddress, ShippingEmail, ShippingPhone
  ]

  /** The position of a comparison in `CheckOrder`. */
  function Rank(c: Check): (k: nat)
    ensures k < |CheckOrder| && CheckOrder[k] == c
  {
    match c
    case BillingName => 0
    case BillingAddress => 1
    case BillingEmail => 2
    case BillingPhone => 3
    case ShippingName => 4
    case ShippingAddress => 5
    case ShippingEmail => 6
    case ShippingPhone => 7
  }

  /** What the matcher decides: no hold, or a hold caused by one entry and one comparison. */
  datatype Outcome = NoMatch | Hold(entryIndex: nat, check: Check)

  /**
   The stored option value as the matcher finds it: a list of entries, or
   anything that is not an array (the source's `is_array` test).
   */
  datatype BlockList = NotAList | ListOf(entries: seq<Entry>)

  /** The full name compared on both sides: first name, one space, last name. */
  function FullName(first: string, last: string): string {
    first + " " + last
  }

  // ---------------------------------------------------------------------------
  // Reference definition: which comparisons fire, stated field by field.
  // ---------------------------------------------------------------------------

  /** The side of the order a comparison reads. */
  function Side(order: OrderContact, c: Check): Contact {
    if Rank(c) < 4 then order.billing else order.shipping
  }

  /** The four kinds of contact field a comparison reads. */
  datatype Field = Name | Address | Email | Phone

  /** The contact field a comparison reads; billing and shipping use the same four. */
  function FieldOf(c: Check): Field {
    match c
    case BillingName => Name
    case ShippingName => Name
    case BillingAddress => Address
    case ShippingAddress => Address
    case BillingEmail => Email
    case ShippingEmail => Email
    case BillingPhone => Phone
    case ShippingPhone => Phone
  }

  /**
   One side of the order agrees with the entry on one field: names, addresses
   and emails are equal ignoring ASCII case, phones are equal once every
   non-digit is deleted from both.
   */
  predicate ContactMatches(side: Contact, e: Entry, f: Field) {
    match f
    case Name => CaseEq(FullName(side.firstName, side.lastName), FullName(e.firstName, e.lastName))
    case Address => CaseEq(side.address1, e.streetAddress)
    case Email => CaseEq(side.email, e.email)
    case Phone => CaseEq(Digits(side.phone), Digits(e.phone))
  }

  predicate FieldMatches(order: OrderContact, e: Entry, c: Check) {
    ContactMatches(Side(order, c), e, FieldOf(c))
  }

  /** A comparison fires when its field matches and the entry is not suppressed. */
  predicate Fires(order: OrderContact, e: Entry, c: Check) {
    FieldMatches(order, e, c) && Participates(e)
  }

  /**
   Entry `i` with comparison `c` is where the matcher stops: `c` fires on it,
   no earlier comparison fires on it, and nothing fires on any earlier entry.
   */
  predicate FirstHit(order: OrderContact, entries: seq<Entry>, i: nat, c: Check) {
    && i < |entries|
    && Fires(order, entries[i], c)
    && (forall d :: Rank(d) < Rank(c) ==> !Fires(order, entries[i], d))
    && (forall j, d :: 0 <= j < i ==> !Fires(order, entries[j], d))
  }

  /** No comparison fires on any entry from index `from` on. */
  predicate NoneFiresFrom(order: OrderContact, entries: seq<Entry>, from: nat) {
    forall j, d :: from <= j < |entries| ==> !Fires(order, entries[j], d)
  }

  // ---------------------------------------------------------------------------
  // The engine, in the shape of the source.
  // ---------------------------------------------------------------------------

  /**
   The order's contact fields with both phone numbers reduced to digits, done
   once up front; every other field is kept as it is.
   */
  function Prepare(order: OrderContact): (p: OrderContact)
    ensures AllDigits(p.billing.phone) && AllDigits(p.shipping.phone)
    ensures p.billing.(phone := order.billing.phone) == order.billing
    ensures p.shipping.(phone := order.shipping.phone) == order.shipping
  {
    OrderContact(
      order.billing.(phone := Digits(order.billing.phone)),
      order.shipping.(phone := Digits(order.shipping.phone)))
  }

  /** Preparing an order that is already prepared changes nothing. */
  lemma PrepareIdempotent(order: OrderContact)
    ensures Prepare(Prepare(order)) == Prepare(order)
  {
    DigitsOfDigits(Prepare(order).billing.phone);
    DigitsOfDigits(Prepare(order).shipping.phone);
  }

  /**
   The eight tests run on one entry, in the source's order; each requires the
   field to match and the entry's `disable` not to be "yes". `None` when none
   of them succeeds, and always `None` for an entry that does not take part
   in matching.
   */
  function EntryVerdict(p: OrderContact, e: Entry): (r: Option<Check>)
    ensures r.Some? ==> Participates(e)
  {
    var entryPhone := Digits(e.phone);
    var entryName := FullName(e.firstName, e.lastName);
    if CaseEq(FullName(p.billing.firstName, p.billing.lastName), entryName) && e.disable != Some(Yes) then Some(BillingName)
    else if CaseEq(p.billing.address1, e.streetAddress) && e.disable != Some(Yes) then Some(BillingAddress)
    else if CaseEq(p.billing.email, e.email) && e.disable != Some(Yes) then Some(BillingEmail)
    else if CaseEq(p.billing.phone, entryPhone) && e.disable != Some(Yes) then Some(BillingPhone)
    else if CaseEq(FullName(p.shipping.firstName, p.shipping.lastName), entryName) && e.disable != Some(Yes) then Some(ShippingName)
    else if CaseEq(p.shipping.address1, e.streetAddress) && e.disable != Some(Yes) then Some(ShippingAddress)
    else if CaseEq(p.shipping.email, e.email) && e.disable != Some(Yes) then Some(ShippingEmail)
    else if CaseEq(p.shipping.phone, entryPhone) && e.disable != Some(Yes) then Some(ShippingPhone)
    else None
  }

  /**
   The `foreach` over the entries from index `i`, returning at the first
   entry whose tests succeed; a hold always names an entry of the list.
   */
  function Scan(p: OrderContact, entries: seq<Entry>, i: nat): (r: Outcome)
    requires i <= |entries|
    ensures r.Hold? ==> i <= r.entryIndex < |entries|
    decreases |entries| - i
  {
    if i == |entries| then NoMatch
    else
      var verdict := EntryVerdict(p, entries[i]);
      if verdict.Some? then Hold(i, verdict.value) else Scan(p, entries, i + 1)
  }

  /**
   `plk_chargeback_check`: an empty or non-array block list holds nothing;
   otherwise the entries are scanned in stored order. The order is held
   exactly at the first firing pair of entry and comparison, and is let
   through exactly when nothing fires.
   */
  function Evaluate(order: OrderContact, list: BlockList): (r: Outcome)
    ensures r.NoMatch? <==>
      list.NotAList? || forall j, d :: 0 <= j < |list.entries| ==> !Fires(order, list.entries[j], d)
    ensures r.Hold? ==> list.ListOf? && FirstHit(order, list.entries, r.entryIndex, r.check)
  {
    if list.NotAList? || |list.entries| == 0 then NoMatch
    else
      ScanFindsFirstHit(order, list.entries, 0);
      Scan(Prepare(order), list.entries, 0)
  }

  // ---------------------------------------------------------------------------
  // The engine agrees with the reference definition.
  // ---------------------------------------------------------------------------

  /**
   Each billing comparison fires exactly when the corresponding test of the
   chain, run on the prepared order, succeeds.
   */
  lemma BillingFiresOnPrepared(order: OrderContact, e: Entry)
    ensures var b, name, phone := Prepare(order).billing, FullName(e.firstName, e.lastName), Digits(e.phone);
      && Fires(order, e, BillingName) == (CaseEq(FullName(b.firstName, b.lastName), name) && e.disable != Some(Yes))
      && Fires(order, e, BillingAddress) == (CaseEq(b.address1, e.streetAddress) && e.disable != Some(Yes))
      && Fires(order, e, BillingEmail) == (CaseEq(b.email, e.email) && e.disable != Some(Yes))
      && Fires(order, e, BillingPhone) == (CaseEq(b.phone, phone) && e.disable != Some(Yes))
  {
  }

  /**
   Each shipping comparison fires exactly when the corresponding test of the
   chain, run on the prepared order, succeeds.
   */
  lemma ShippingFiresOnPrepared(order: OrderContact, e: Entry)
    ensures var s, name, phone := Prepare(order).shipping, FullName(e.firstName, e.lastName), Digits(e.phone);
      && Fires(order, e, ShippingName) == (CaseEq(FullName(s.firstName, s.lastName), name) && e.disable != Some(Yes))
      && Fires(order, e, ShippingAddress) == (CaseEq(s.address1, e.streetAddress) && e.disable != Some(Yes))
      && Fires(order, e, ShippingEmail) == (CaseEq(s.email, e.email) && e.disable != Some(Yes))
      && Fires(order, e, ShippingPhone) == (CaseEq(s.phone, phone) && e.disable != Some(Yes))
  {
  }

  /**
   On one entry the chain of tests answers with the earliest comparison, in
   `CheckOrder`, that fires, and with `None` exactly when none fires.
   */
  lemma EntryVerdictIsFirstFiring(order: OrderContact, e: Entry)
    ensures EntryVerdict(Prepare(order), e).None? <==> forall d :: !Fires(order, e, d)
    ensures EntryVerdict(Prepare(order), e).Some? ==>
      var c := EntryVerdict(Prepare(order), e).value;
      Fires(order, e, c) && forall d :: Rank(d) < Rank(c) ==> !Fires(order, e, d)
  {
    BillingFiresOnPrepared(order, e);
    ShippingFiresOnPrepared(order, e);
  }

  /** Scanning from `i`, after nothing fired before `i`, finds exactly the first hit. */
  lemma {:induction false} ScanFindsFirstHit(order: OrderContact, entries: seq<Entry>, i: nat)
    requires i <= |entries|
    requires forall j, d :: 0 <= j < i ==> !Fires(order, entries[j], d)
    ensures Scan(Prepare(order), entries, i).NoMatch? <==> NoneFiresFrom(order, entries, i)
    ensures Scan(Prepare(order), entries, i).Hold? ==>
      FirstHit(order, entries, Scan(Prepare(order), entries, i).entryIndex, Scan(Prepare(order), entries, i).check)
    decreases |entries| - i
  {
    if i < |entries| {
      EntryVerdictIsFirstFiring(order, entries[i]);
      if EntryVerdict(Prepare(order), entries[i]).None? {
        ScanFindsFirstHit(order, entries, i + 1);
      }
    }
  }

  /** There is at most one first hit. */
  lemma FirstHitUnique(order: OrderContact, entries: seq<Entry>, i: nat, c: Check, i': nat, c': Check)
    requires FirstHit(order, entries, i, c) && FirstHit(order, entries, i', c')
    ensures i == i' && c == c'
  {
  }

  /**
   First hit wins: the matcher holds the order for entry `i` and comparison
   `c` exactly when that pair is the first firing one, entries in stored
   order and comparisons in `CheckOrder`; later comparisons and entries are
   never looked at.
   */
  lemma EvaluateIsFirstHit(order: OrderContact, entries: seq<Entry>, i: nat, c: Check)
    ensures Evaluate(order, ListOf(entries)) == Hold(i, c) <==> FirstHit(order, entries, i, c)
  {
    var r := Evaluate(order, ListOf(entries));
    if FirstHit(order, entries, i, c) {
      assert !NoneFiresFrom(order, entries, 0);
      FirstHitUnique(order, entries, i, c, r.entryIndex, r.check);
    }
  }

  /** The order is not held exactly when no comparison fires on any entry. */
  lemma EvaluateNoMatchIff(order: OrderContact, entries: seq<Entry>)
    ensures Evaluate(order, ListOf(entries)).NoMatch? <==>
      forall j, d :: 0 <= j < |entries| ==> !Fires(order, entries[j], d)
  {
  }

  /** An empty block list, or a stored value that is not a list, never holds an order. */
  lemma EmptyListNeverHolds(order: OrderContact)
    ensures Evaluate(order, NotAList) == NoMatch
    ensures Evaluate(order, ListOf([])) == NoMatch
  {
  }

  // ---------------------------------------------------------------------------
  // Suppression.
  // ---------------------------------------------------------------------------

  /** An entry whose `disable` is "yes" is never the reason for a hold, whatever its fields. */
  lemma SuppressedNeverHolds(order: OrderContact, entries: seq<Entry>, i: nat, c: Check)
    requires i < |entries| && entries[i].disable == Some(Yes)
    ensures Evaluate(order, ListOf(entries)) != Hold(i, c)
  {
    EvaluateIsFirstHit(order, entries, i, c);
  }

  /**
   Replacing a suppressed entry by any other suppressed entry leaves the
   decision unchanged: its fields are never consulted.
   */
  lemma SuppressedIsInvisible(order: OrderContact, entries: seq<Entry>, i: nat, e: Entry)
    requires i < |entries| && entries[i].disable == Some(Yes)
    requires e.disable == Some(Yes)
    ensures Evaluate(order, ListOf(entries[i := e])) == Evaluate(order, ListOf(entries))
  {
    var entries' := entries[i := e];
    forall j, d | 0 <= j < |entries| && j != i
      ensures Fires(order, entries'[j], d) == Fires(order, entries[j], d)
    {
    }
    EvaluateNoMatchIff(order, entries);
    EvaluateNoMatchIff(order, entries');
    var r := Evaluate(order, ListOf(entries));
    if r.Hold? {
      EvaluateIsFirstHit(order, entries, r.entryIndex, r.check);
      EvaluateIsFirstHit(order, entries', r.entryIndex, r.check);
    }
  }

  /**
   Any `disable` value other than "yes", a missing key included, keeps an
   entry active: if one of its fields matches, the order is held, by this
   entry at that comparison or by something earlier.
   */
  lemma ActiveEntryHolds(order: OrderContact, entries: seq<Entry>, i: nat, c: Check)
    requires i < |entries| && entries[i].disable != Some(Yes)
    requires FieldMatches(order, entries[i], c)
    ensures Evaluate(order, ListOf(entries)).Hold?
    ensures var r := Evaluate(order, ListOf(entries));
      r.entryIndex < i || (r.entryIndex == i && Rank(r.check) <= Rank(c))
  {
    EvaluateNoMatchIff(order, entries);
    assert Fires(order, entries[i], c);
    var r := Evaluate(order, ListOf(entries));
    EvaluateIsFirstHit(order, entries, r.entryIndex, r.check);
  }

  /**
   On a one-entry list the reported comparison is the first matching one in
   `CheckOrder`, provided the entry is active.
   */
  lemma SingleEntryHolds(order: OrderContact, e: Entry, c: Check)
    requires Participates(e) && FieldMatches(order, e, c)
    requires forall d :: Rank(d) < Rank(c) ==> !FieldMatches(order, e, d)
    ensures Evaluate(order, ListOf([e])) == Hold(0, c)
  {
    assert FirstHit(order, [e], 0, c);
    EvaluateIsFirstHit(order, [e], 0, c);
  }
}
