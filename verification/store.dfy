/**
 The entry store: the three admin operations that rewrite the stored block
 list (add an entry, set every entry's `disable` flag, delete a set of
 positions), each a function from the old list to the new one. Entries are
 identified only by their position, and a deletion renumbers the survivors.
 */
module Store {
  import opened Wrappers
  import opened Entries
  import opened Matcher

  // ---------------------------------------------------------------------------
  // Append (`chargeback_blocker_save_entries`).
  // ---------------------------------------------------------------------------

  /** The "add entry" form fields as submitted, before sanitising. */
  datatype Submission = Submission(
    firstName: string,
    lastName: string,
    streetAddress: string,
    email: string,
    phone: string,
    status: string)

  /**
   Adds one entry at the end. Every text field passes through
   `sanitizeText` and the email through `sanitizeEmail` (WordPress's
   `sanitize_text_field` and `sanitize_email`, whose behaviour is not part of
   this model); the new entry always starts with `disable` = "no".
   */
  function Append(list: seq<Entry>, form: Submission, sanitizeText: string -> string, sanitizeEmail: string -> string): (r: seq<Entry>)
    ensures |r| == |list| + 1
    ensures r[..|list|] == list
    ensures r[|list|].firstName == sanitizeText(form.firstName)
    ensures r[|list|].lastName == sanitizeText(form.lastName)
    ensures r[|list|].streetAddress == sanitizeText(form.streetAddress)
    ensures r[|list|].email == sanitizeEmail(form.email)
    ensures r[|list|].phone == sanitizeText(form.phone)
    ensures r[|list|].status == sanitizeText(form.status)
    ensures r[|list|].disable == Some(No) && Participates(r[|list|])
  {
    var entry := Entry(
      sanitizeText(form.firstName),
      sanitizeText(form.lastName),
      sanitizeText(form.streetAddress),
      sanitizeEmail(form.email),
      sanitizeText(form.phone),
      sanitizeText(form.status),
      Some(No));
    list + [entry]
  }

  /** Moves a hold found in a sub-list to the position that sub-list starts at. */
  function Offset(r: Outcome, k: nat): Outcome {
    match r
    case NoMatch => NoMatch
    case Hold(i, c) => Hold(i + k, c)
  }

  /** Scanning the second part of a joined list is scanning that part alone, shifted past the first. */
  lemma {:induction false} ScanSuffix(p: OrderContact, xs: seq<Entry>, ys: seq<Entry>, j: nat)
    requires j <= |ys|
    ensures Scan(p, xs + ys, |xs| + j) == Offset(Scan(p, ys, j), |xs|)
    decreases |ys| - j
  {
    if j < |ys| {
      assert (xs + ys)[|xs| + j] == ys[j];
      ScanSuffix(p, xs, ys, j + 1);
    }
  }

  /** Scanning a joined list: the first part decides if it holds, otherwise the second part does. */
  lemma {:induction false} ScanPrefix(p: OrderContact, xs: seq<Entry>, ys: seq<Entry>, i: nat)
    requires i <= |xs|
    ensures Scan(p, xs + ys, i) ==
      if Scan(p, xs, i).Hold? then Scan(p, xs, i) else Offset(Scan(p, ys, 0), |xs|)
    decreases |xs| - i
  {
    if i < |xs| {
      assert (xs + ys)[i] == xs[i];
      ScanPrefix(p, xs, ys, i + 1);
    } else {
      ScanSuffix(p, xs, ys, 0);
    }
  }

  /**
   Matching against two lists laid end to end: a hold found in the first is
   kept, otherwise the second list decides, its positions shifted past the
   first.
   */
  lemma EvaluateConcat(order: OrderContact, xs: seq<Entry>, ys: seq<Entry>)
    ensures Evaluate(order, ListOf(xs + ys)) ==
      if Evaluate(order, ListOf(xs)).Hold? then Evaluate(order, ListOf(xs))
      else Offset(Evaluate(order, ListOf(ys)), |xs|)
  {
    ScanPrefix(Prepare(order), xs, ys, 0);
    if |xs| == 0 {
      assert xs + ys == ys;
    }
  }

  /**
   Adding an entry never changes a decision the old list already made to
   hold; an order the old list let through is held by the new entry exactly
   when the new entry alone would hold it, at the new last position.
   */
  lemma EvaluateAfterAppend(order: OrderContact, list: seq<Entry>, form: Submission, sanitizeText: string -> string, sanitizeEmail: string -> string)
    ensures var list' := Append(list, form, sanitizeText, sanitizeEmail);
      Evaluate(order, ListOf(list')) ==
        if Evaluate(order, ListOf(list)).Hold? then Evaluate(order, ListOf(list))
        else Offset(Evaluate(order, ListOf([list'[|list|]])), |list|)
  {
    var list' := Append(list, form, sanitizeText, sanitizeEmail);
    assert list' == list + [list'[|list|]];
    EvaluateConcat(order, list, [list'[|list|]]);
  }

  // ---------------------------------------------------------------------------
  // Flag update (`chargeback_blocker_update_entries`).
  // ---------------------------------------------------------------------------

  /**
   With a submitted set of checked positions, every entry's `disable`
   becomes "yes" when its position is checked and "no" otherwise. Without one
   (no "Update" press, or no box checked at all, so the form sends no
   `disable_entry`) the list is left as it was.
   */
  function UpdateFlags(list: seq<Entry>, submitted: Option<set<int>>): (r: seq<Entry>)
    ensures |r| == |list|
    ensures submitted.None? ==> r == list
    ensures submitted.Some? ==> forall i :: 0 <= i < |list| ==>
      && r[i].disable == Some(if i in submitted.value then Yes else No)
      && r[i].(disable := list[i].disable) == list[i]
  {
    match submitted
    case None => list
    case Some(checked) =>
      seq(|list|, i requires 0 <= i < |list| => list[i].(disable := Some(if i in checked then Yes else No)))
  }

  /** Submitting the same boxes twice is the same as submitting them once. */
  lemma UpdateFlagsIdempotent(list: seq<Entry>, submitted: Option<set<int>>)
    ensures UpdateFlags(UpdateFlags(list, submitted), submitted) == UpdateFlags(list, submitted)
  {
  }

  /**
   After an update with checked positions, an entry takes part in matching
   exactly when its box was left unchecked, whatever its flag was before.
   */
  lemma UpdatedParticipation(list: seq<Entry>, checked: set<int>, i: nat)
    requires i < |list|
    ensures Participates(UpdateFlags(list, Some(checked))[i]) <==> i !in checked
  {
  }

  /** After an update, a hold is always caused by an unchecked entry. */
  lemma UpdatedHoldIsUnchecked(order: OrderContact, list: seq<Entry>, checked: set<int>)
    ensures var r := Evaluate(order, ListOf(UpdateFlags(list, Some(checked))));
      r.Hold? ==> r.entryIndex !in checked
  {
    var list' := UpdateFlags(list, Some(checked));
    var r := Evaluate(order, ListOf(list'));
    if r.Hold? {
      EvaluateIsFirstHit(order, list', r.entryIndex, r.check);
    }
  }

  /** Checking every box turns the matcher off: no order is held. */
  lemma AllCheckedHoldsNothing(order: OrderContact, list: seq<Entry>, checked: set<int>)
    requires forall i :: 0 <= i < |list| ==> i in checked
    ensures Evaluate(order, ListOf(UpdateFlags(list, Some(checked)))) == NoMatch
  {
    EvaluateNoMatchIff(order, UpdateFlags(list, Some(checked)));
  }

  // ---------------------------------------------------------------------------
  // Delete (`chargeback_blocker_delete_entries`).
  // ---------------------------------------------------------------------------

  /** The positions below `n` that a deletion names. */
  function InRange(n: nat, doomed: set<int>): set<int> {
    set i | 0 <= i < n && i in doomed
  }

  /** The positions below `n` that are not named, in ascending order. */
  function Kept(n: nat, doomed: set<int>): (ks: seq<nat>)
    ensures forall k :: 0 <= k < |ks| ==> ks[k] < n
  {
    if n == 0 then [] else Kept(n - 1, doomed) + (if n - 1 in doomed then [] else [n - 1])
  }

  /** Each position below `n` is listed exactly when it is not named, and the list ascends. */
  lemma {:induction false} KeptSpec(n: nat, doomed: set<int>)
    ensures var ks := Kept(n, doomed);
      && (forall k :: 0 <= k < |ks| ==> ks[k] !in doomed)
      && (forall k, l :: 0 <= k < l < |ks| ==> ks[k] < ks[l])
      && (forall i :: 0 <= i < n && i !in doomed ==> i in ks)
  {
    if n > 0 {
      KeptSpec(n - 1, doomed);
    }
  }

  /** The entries at the given positions, in the order the positions are listed. */
  function Pick(list: seq<Entry>, ks: seq<nat>): (r: seq<Entry>)
    requires forall k :: 0 <= k < |ks| ==> ks[k] < |list|
    ensures |r| == |ks|
  {
    seq(|ks|, k requires 0 <= k < |ks| => list[ks[k]])
  }

  lemma PickSnoc(list: seq<Entry>, ks: seq<nat>, i: nat)
    requires forall k :: 0 <= k < |ks| ==> ks[k] < |list|
    requires i < |list|
    ensures Pick(list, ks + [i]) == Pick(list, ks) + [list[i]]
  {
  }

  /** Reference for deletion: the entries at the positions not named, in their old order. */
  function Survivors(list: seq<Entry>, doomed: set<int>): seq<Entry> {
    Pick(list, Kept(|list|, doomed))
  }

  /**
   The `unset` loop: starting from the list as an index-keyed array, each
   submitted index that is present is removed; indices not present are
   ignored. The remaining keys are the positions not submitted.
   */
  method UnsetAll(list: seq<Entry>, submitted: seq<int>) returns (slots: map<int, Entry>)
    ensures slots.Keys == set i | 0 <= i < |list| && i !in submitted
    ensures forall i :: i in slots ==> 0 <= i < |list| && slots[i] == list[i]
  {
    slots := map i | 0 <= i < |list| :: list[i];
    var k := 0;
    while k < |submitted|
      invariant 0 <= k <= |submitted|
      invariant slots.Keys == set i | 0 <= i < |list| && i !in submitted[..k]
      invariant forall i :: i in slots ==> 0 <= i < |list| && slots[i] == list[i]
    {
      var index := submitted[k];
      if index in slots {
        slots := slots - {index};
      }
      assert submitted[..k + 1] == submitted[..k] + [index];
      k := k + 1;
    }
    assert submitted[..k] == submitted;
  }

  /**
   `array_values` on what the `unset` loop left: the remaining values in
   ascending key order, renumbered from 0. Every key lies below the old
   length `n`, and keys were only ever removed, so ascending key order is
   the array's internal order.
   */
  method ArrayValues(slots: map<int, Entry>, n: nat, ghost list: seq<Entry>, ghost doomed: set<int>) returns (r: seq<Entry>)
    requires n == |list|
    requires slots.Keys == set i | 0 <= i < |list| && i !in doomed
    requires forall i :: i in slots ==> slots[i] == list[i]
    ensures r == Survivors(list, doomed)
  {
    r := [];
    var i := 0;
    while i < n
      invariant 0 <= i <= n
      invariant r == Pick(list, Kept(i, doomed))
    {
      if i in slots {
        assert i !in doomed;
        PickSnoc(list, Kept(i, doomed), i);
        r := r + [slots[i]];
      } else {
        assert i in doomed;
      }
      i := i + 1;
    }
  }

  /**
   `chargeback_blocker_delete_entries`: remove the submitted positions that
   exist and renumber the rest; equal to the reference `Survivors`.
   */
  method Delete(list: seq<Entry>, submitted: seq<int>) returns (r: seq<Entry>)
    ensures r == Survivors(list, set x | x in submitted)
  {
    var slots := UnsetAll(list, submitted);
    r := ArrayValues(slots, |list|, list, set x | x in submitted);
  }

  /** Extending the range by one position adds it to the named positions exactly when it is named. */
  lemma InRangeStep(n: nat, doomed: set<int>)
    ensures |InRange(n + 1, doomed)| == |InRange(n, doomed)| + (if n in doomed then 1 else 0)
  {
    assert n !in InRange(n, doomed);
    if n in doomed {
      assert InRange(n + 1, doomed) == InRange(n, doomed) + {n};
    } else {
      assert InRange(n + 1, doomed) == InRange(n, doomed);
    }
  }

  /** The number of positions kept is the old length minus the distinct in-range positions named. */
  lemma {:induction false} KeptCount(n: nat, doomed: set<int>)
    ensures |Kept(n, doomed)| == n - |InRange(n, doomed)|
  {
    if n > 0 {
      KeptCount(n - 1, doomed);
      InRangeStep(n - 1, doomed);
      assert |Kept(n, doomed)| == |Kept(n - 1, doomed)| + (if n - 1 in doomed then 0 else 1);
    }
  }

  /**
   Deletion keeps exactly the entries whose positions were not named, in
   their old relative order, renumbered from 0; the new length is the old
   length minus the number of distinct in-range positions named.
   */
  lemma SurvivorsSpec(list: seq<Entry>, doomed: set<int>)
    ensures |Survivors(list, doomed)| == |list| - |InRange(|list|, doomed)|
    ensures var ks := Kept(|list|, doomed);
      && (forall k :: 0 <= k < |ks| ==> Survivors(list, doomed)[k] == list[ks[k]])
      && (forall k, l :: 0 <= k < l < |ks| ==> ks[k] < ks[l])
      && (forall i :: 0 <= i < |list| ==> (i in ks <==> i !in doomed))
  {
    KeptCount(|list|, doomed);
    KeptSpec(|list|, doomed);
  }

  /** Positions outside the list play no part in a deletion. */
  lemma {:induction false} OutOfRangeIgnored(n: nat, doomed: set<int>)
    ensures Kept(n, doomed) == Kept(n, InRange(n, doomed))
  {
    if n > 0 {
      KeptPrefixStable(n - 1, doomed, InRange(n, doomed));
    }
  }

  lemma {:induction false} KeptPrefixStable(n: nat, d1: set<int>, d2: set<int>)
    requires forall i :: 0 <= i <= n ==> (i in d1 <==> i in d2)
    ensures Kept(n + 1, d1) == Kept(n + 1, d2)
  {
    if n > 0 {
      KeptPrefixStable(n - 1, d1, d2);
    }
  }

  /** Naming no position inside the list leaves it as it was. */
  lemma NothingNamedKeepsAll(list: seq<Entry>, doomed: set<int>)
    requires forall i :: 0 <= i < |list| ==> i !in doomed
    ensures Survivors(list, doomed) == list
  {
    SurvivorsSpec(list, doomed);
    var ks := Kept(|list|, doomed);
    KeptCount(|list|, doomed);
    assert InRange(|list|, doomed) == {};
    KeptIsIdentity(ks, |list|);
  }

  /** An ascending list of `n` positions below `n` is 0, 1, ..., n-1. */
  lemma {:induction false} KeptIsIdentity(ks: seq<nat>, n: nat)
    requires |ks| == n
    requires forall k :: 0 <= k < |ks| ==> ks[k] < n
    requires forall k, l :: 0 <= k < l < |ks| ==> ks[k] < ks[l]
    ensures forall k :: 0 <= k < n ==> ks[k] == k
  {
    forall k | 0 <= k < n
      ensures ks[k] == k
    {
      AscendingBounds(ks, n, k);
    }
  }

  lemma {:induction false} AscendingBounds(ks: seq<nat>, n: nat, k: nat)
    requires |ks| == n && k < n
    requires forall j :: 0 <= j < |ks| ==> ks[j] < n
    requires forall j, l :: 0 <= j < l < |ks| ==> ks[j] < ks[l]
    ensures k <= ks[k] && ks[k] <= k
    decreases n - k
  {
    AscendingFromStart(ks, k);
    if k + 1 < n {
      AscendingBounds(ks, n, k + 1);
    }
  }

  lemma {:induction false} AscendingFromStart(ks: seq<nat>, k: nat)
    requires k < |ks|
    requires forall j, l :: 0 <= j < l < |ks| ==> ks[j] < ks[l]
    ensures k <= ks[k]
  {
    if k > 0 {
      AscendingFromStart(ks, k - 1);
    }
  }

  /** Deleting positions 0 and 2 from a three-entry list leaves the old middle entry, now at 0. */
  lemma DeleteFirstAndLast(a: Entry, b: Entry, c: Entry)
    ensures Survivors([a, b, c], {0, 2}) == [b]
  {
    assert Kept(3, {0, 2}) == [1];
  }

  /**
   Deleting entries never makes the matcher hold an order it let through
   before: every survivor was already in the list.
   */
  lemma DeleteCreatesNoHold(order: OrderContact, list: seq<Entry>, doomed: set<int>)
    requires Evaluate(order, ListOf(list)) == NoMatch
    ensures Evaluate(order, ListOf(Survivors(list, doomed))) == NoMatch
  {
    var s := Survivors(list, doomed);
    var ks := Kept(|list|, doomed);
    EvaluateNoMatchIff(order, list);
    EvaluateNoMatchIff(order, s);
    forall j, d | 0 <= j < |s|
      ensures !Fires(order, s[j], d)
    {
      assert s[j] == list[ks[j]];
    }
  }
}
