/** The block-list record the plugin stores, one per watched person. */
module Entries {
  import opened Wrappers

  /**
   One stored entry. Every contact field is a string (a key missing from an
   old record reads as the empty string); `disable` keeps the stored value of
   the `disable` key, `None` when a record predates that key.
   */
  datatype Entry = Entry(
    firstName: string,
    lastName: string,
    streetAddress: string,
    email: string,
    phone: string,
    status: string,
    disable: Option<string>)

  /** The value the administrator's "disable" checkbox stores for a suppressed entry. */
  const Yes: string := "yes"

  /** The value stored for an entry that takes part in matching. */
  const No: string := "no"

  /**
   An entry takes part in matching unless its `disable` key holds exactly
   "yes": the source tests with a strict `!==`, so a missing key, "no", or any
   other spelling ("YES", "") leaves the entry active.
   */
  predicate Participates(e: Entry) {
    e.disable != Some(Yes)
  }
}
