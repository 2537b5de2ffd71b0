/**
 The admin table's display order (`chargeback_blocker_sort_entries`): a copy
 of the list sorted on one column with PHP's `strnatcmp`, negated for a
 descending order. `strnatcmp` itself is a parameter here; the sort only
 relies on it answering consistently when its arguments are swapped.

 The checkboxes of the table carry positions in this sorted copy, while the
 flag update and the deletion apply them to the stored, unsorted list; the
 two agree only when the sort leaves the list in place.
 */
module Sorting {
  import opened Entries

  /** The sortable columns of the admin table. */
  datatype Column = FirstName | LastName | StreetAddress | EmailAddress | PhoneNumber | Status | Disable

  /** The value of one column; a missing `disable` key compares as the empty string. */
  function Cell(e: Entry, col: Column): string {
    match col
    case FirstName => e.firstName
    case LastName => e.lastName
    case StreetAddress => e.streetAddress
    case EmailAddress => e.email
    case PhoneNumber => e.phone
    case Status => e.status
    case Disable => if e.disable.Some? then e.disable.value else ""
  }

  function Sign(x: int): int {
    if x < 0 then -1 else if x > 0 then 1 else 0
  }

  /** Swapping a comparator's arguments flips the sign of its answer, as `strnatcmp` does. */
  ghost predicate Antisymmetric(cmp: (string, string) -> int) {
    forall a, b :: Sign(cmp(a, b)) == -Sign(cmp(b, a))
  }

  /** The `usort` callback: the column comparison, negated unless `order` is exactly "ASC". */
  function Compare(cmp: (string, string) -> int, col: Column, order: string, a: Entry, b: Entry): int {
    var c := cmp(Cell(a, col), Cell(b, col));
    if order == "ASC" then c else -c
  }

  /**
   Any order other than exactly "ASC" (including "asc" and the empty string)
   sorts descending: the comparison agrees in sign with the ascending one on
   the swapped pair.
   */
  lemma DescendingSwapsArguments(cmp: (string, string) -> int, col: Column, order: string, a: Entry, b: Entry)
    requires Antisymmetric(cmp)
    ensures order != "ASC" ==>
      Sign(Compare(cmp, col, order, a, b)) == Sign(Compare(cmp, col, "ASC", b, a))
  {
    assert Sign(cmp(Cell(a, col), Cell(b, col))) == -Sign(cmp(Cell(b, col), Cell(a, col)));
  }

  /** Each entry compares at most equal to the one after it. */
  ghost predicate Sorted(s: seq<Entry>, cmp: (string, string) -> int, col: Column, order: string) {
    forall i :: 0 < i < |s| ==> Compare(cmp, col, order, s[i - 1], s[i]) <= 0
  }

  /** The callback inherits the comparator's antisymmetry in both directions. */
  lemma CompareAntisymmetric(cmp: (string, string) -> int, col: Column, order: string, a: Entry, b: Entry)
    requires Antisymmetric(cmp)
    ensures Sign(Compare(cmp, col, order, a, b)) == -Sign(Compare(cmp, col, order, b, a))
  {
    assert Sign(cmp(Cell(a, col), Cell(b, col))) == -Sign(cmp(Cell(b, col), Cell(a, col)));
  }

  /**
   Puts `x` before the first entry that compares greater than it, so that it
   follows every entry comparing equal to it.
   */
  function Insert(x: Entry, s: seq<Entry>, cmp: (string, string) -> int, col: Column, order: string): (r: seq<Entry>)
    ensures multiset(r) == multiset(s) + multiset{x}
    ensures |r| == |s| + 1 && (r[0] == x || (|s| > 0 && r[0] == s[0]))
  {
    if |s| == 0 then [x]
    else if Compare(cmp, col, order, x, s[0]) < 0 then [x] + s
    else
      assert s == [s[0]] + s[1..];
      [s[0]] + Insert(x, s[1..], cmp, col, order)
  }

  lemma SortedTail(s: seq<Entry>, cmp: (string, string) -> int, col: Column, order: string)
    requires |s| > 0 && Sorted(s, cmp, col, order)
    ensures Sorted(s[1..], cmp, col, order)
  {
    forall i | 0 < i < |s| - 1
      ensures Compare(cmp, col, order, s[1..][i - 1], s[1..][i]) <= 0
    {
      assert s[1..][i - 1] == s[i] && s[1..][i] == s[i + 1];
    }
  }

  lemma SortedCons(y: Entry, s: seq<Entry>, cmp: (string, string) -> int, col: Column, order: string)
    requires |s| > 0 && Sorted(s, cmp, col, order)
    requires Compare(cmp, col, order, y, s[0]) <= 0
    ensures Sorted([y] + s, cmp, col, order)
  {
    forall i | 0 < i < |s| + 1
      ensures Compare(cmp, col, order, ([y] + s)[i - 1], ([y] + s)[i]) <= 0
    {
      if i > 1 {
        assert ([y] + s)[i - 1] == s[i - 2] && ([y] + s)[i] == s[i - 1];
      }
    }
  }

  /** Inserting into a sorted list keeps it sorted. */
  lemma {:induction false} InsertSorted(x: Entry, s: seq<Entry>, cmp: (string, string) -> int, col: Column, order: string)
    requires Antisymmetric(cmp)
    requires Sorted(s, cmp, col, order)
    ensures Sorted(Insert(x, s, cmp, col, order), cmp, col, order)
  {
    if |s| > 0 {
      if Compare(cmp, col, order, x, s[0]) < 0 {
        SortedCons(x, s, cmp, col, order);
      } else {
        CompareAntisymmetric(cmp, col, order, x, s[0]);
        SortedTail(s, cmp, col, order);
        InsertSorted(x, s[1..], cmp, col, order);
        var rest := Insert(x, s[1..], cmp, col, order);
        assert Compare(cmp, col, order, s[0], rest[0]) <= 0;
        SortedCons(s[0], rest, cmp, col, order);
      }
    }
  }

  /**
   `chargeback_blocker_sort_entries`: the entries rearranged so that each
   compares at most equal to the next, for the chosen column and direction.
   Elements are inserted in list order, so equal entries keep their order,
   as PHP's stable `usort` does.
   */
  function Sort(s: seq<Entry>, cmp: (string, string) -> int, col: Column, order: string): (r: seq<Entry>)
    requires Antisymmetric(cmp)
    ensures multiset(r) == multiset(s)
    ensures Sorted(r, cmp, col, order)
  {
    if |s| == 0 then []
    else
      assert s == s[..|s| - 1] + [s[|s| - 1]];
      InsertSorted(s[|s| - 1], Sort(s[..|s| - 1], cmp, col, order), cmp, col, order);
      Insert(s[|s| - 1], Sort(s[..|s| - 1], cmp, col, order), cmp, col, order)
  }
}
