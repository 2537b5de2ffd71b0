# PLK Chargeback Checker — a Dafny model of its matching and list maintenance

The PLK Chargeback Checker is a WordPress/WooCommerce plugin. An administrator
keeps a block list of people known for chargebacks, with name, street address,
email and phone. When an order moves from pending to processing, the plugin
compares the order's billing and shipping contact fields with every entry. On
the first hit it puts the order on hold. The admin page can add an entry, set
every entry's `disable` flag from a row of checkboxes, delete checked entries,
and show the list sorted by any column.

This project models the whole of that logic as pure functions over a sequence
of entries:

- `Text`: PHP's `strcasecmp` (ASCII case folding) and the phone normalisation
  `preg_replace('/\D/', '', …)`.
- `Entries`: the stored entry record. It includes the `disable` key, which may
  be missing.
- `Matcher`: `plk_chargeback_check` is `Matcher.Evaluate`. The source's
  `plk_update_order_status('on-hold', …)` call becomes the result
  `Hold(entryIndex, check)`; returning without the call becomes `NoMatch`.
  The engine follows the source's shape. `Prepare` normalises the order's
  phones up front. `Scan` is the `foreach` over the entries. `EntryVerdict`
  runs the eight `if` tests on one entry in the source's order. The engine is proved equal to a reference
  definition, `FirstHit`: the first firing (entry, comparison) pair, entries in
  stored order and comparisons in `CheckOrder`.
- `Store`: `chargeback_blocker_save_entries` (append),
  `chargeback_blocker_update_entries` (flag update) and
  `chargeback_blocker_delete_entries` (delete). Delete follows the source's two
  steps, an `unset` loop over an index-keyed map and then `array_values`. It is
  proved equal to a reference `Survivors` function.
- `Sorting`: `chargeback_blocker_sort_entries`. The comparator `strnatcmp` is a
  parameter.
- `Scenarios`: worked examples, proved as lemmas, on one watched person,
  "Jane Doe".

The model follows the code in these details:

- No field is trimmed at comparison time. The only trimming is done by the
  sanitisers when an entry is saved.
- The flag update sets every entry's flag at once from the submitted set of
  checked positions. There is no per-index update, and no not-found signal.
- There is no "store unavailable" error path. An option value that is not an
  array counts as an empty list (`BlockList.NotAList`).
- The matcher tests `'yes' !== $entry['disable']` with a strict comparison. So
  only the exact string "yes" suppresses an entry. A missing key, "no", "YES"
  or "" all leave the entry active.

One behaviour of the code is worth knowing. When an administrator clears every
"disable" checkbox and presses Update, the browser sends no `disable_entry`.
The update then does nothing, so the flags stay as they were. `UpdateFlags`
states this as its `None` case.

## Model

| member | source | states |
|---|---|---|
| Text.StrCaseCmp | plk-chargeback.php:347 | `strcasecmp` on equal strings is 0, and strings of different lengths never compare as 0 |
| Text.StrCaseCmpZeroIff | plk-chargeback.php:347 | `strcasecmp` returns 0 exactly when the two strings are equal after ASCII lower-casing |
| Text.StrCaseCmpAntisymmetric | plk-chargeback.php:355 | swapping the arguments of `strcasecmp` negates its result |
| Text.CaseEqIff | plk-chargeback.php:361 | the equality test `0 === strcasecmp(a, b)` holds iff the lengths agree and every position agrees after folding, so there is no substring or fuzzy match |
| Text.CaseEqEquivalence | plk-chargeback.php:355 | case-insensitive equality is reflexive, symmetric (from the antisymmetry of `strcasecmp`) and transitive |
| Text.CaseEqEmpty | plk-chargeback.php:361 | an empty field equals an empty field and nothing else, so a blank entry email matches a blank order email |
| Text.Digits | plk-chargeback.php:333 | `preg_replace('/\D/', '', …)` leaves a phone that contains only the digits 0-9 and is no longer than the input |
| Text.DigitsOfChar | plk-chargeback.php:333 | a one-character string keeps its character exactly when it is an ASCII digit and becomes empty otherwise; with `DigitsConcat` this pins the normalisation down as the character-by-character digit filter, so "+", letters and punctuation are all dropped |
| Text.DigitsConcat | plk-chargeback.php:343 | normalising a concatenation is concatenating the normalised parts, so each character is kept or dropped on its own |
| Text.DigitsOfDigits | plk-chargeback.php:338 | a phone that is already all digits is left unchanged |
| Text.DigitsIdempotent | plk-chargeback.php:343 | normalising twice gives the same result as normalising once |
| Matcher.Prepare | plk-chargeback.php:333-338 | both order phones are left holding digits only, and every other order field is kept unchanged |
| Matcher.PrepareIdempotent | plk-chargeback.php:333-338 | preparing an already prepared order changes nothing |
| Matcher.BillingFiresOnPrepared | plk-chargeback.php:343-370 | each billing test of the chain, run on the prepared order with the entry phone reduced to digits, succeeds exactly when the reference comparison fires, so normalising the order phones once up front loses nothing |
| Matcher.ShippingFiresOnPrepared | plk-chargeback.php:372-397 | each shipping test of the chain, run on the prepared order, succeeds exactly when the reference comparison fires |
| Matcher.EntryVerdict | plk-chargeback.php:346-397 | a test succeeds on an entry only if the entry takes part in matching, that is its `disable` is not exactly "yes" |
| Matcher.Scan | plk-chargeback.php:341-398 | the loop from position i only ever holds on an entry of the list at or after i |
| Matcher.Evaluate | plk-chargeback.php:319-400 | `plk_chargeback_check` lets an order through exactly when the list is not an array or nothing fires on any entry, and a hold is always at the first firing pair of entry and comparison |
| Matcher.EntryVerdictIsFirstFiring | plk-chargeback.php:343-397 | on one entry, the chain of eight tests returns the earliest comparison in `CheckOrder` that fires, and returns none exactly when no comparison fires |
| Matcher.ScanFindsFirstHit | plk-chargeback.php:341-398 | the `foreach` from position i, with nothing firing before i, stops at exactly the first hit, and finds nothing exactly when nothing fires from i on |
| Matcher.FirstHitUnique | plk-chargeback.php:341-398 | there is at most one first-hit pair of entry and comparison |
| Matcher.EvaluateIsFirstHit | plk-chargeback.php:327-400 | the order is held for entry i on comparison c iff c fires on entry i, no earlier comparison fires on entry i, and nothing fires on an earlier entry |
| Matcher.EvaluateNoMatchIff | plk-chargeback.php:341-399 | the order is not held iff no comparison fires on any entry |
| Matcher.EmptyListNeverHolds | plk-chargeback.php:327 | an empty block list, or a stored value that is not an array, never holds an order |
| Matcher.SuppressedNeverHolds | plk-chargeback.php:346-397 | an entry whose `disable` is "yes" is never the reason for a hold, whatever its fields |
| Matcher.SuppressedIsInvisible | plk-chargeback.php:346-397 | replacing a suppressed entry with any other suppressed entry leaves the decision unchanged |
| Matcher.ActiveEntryHolds | plk-chargeback.php:346-352 | an entry with any `disable` other than "yes" (a missing key included) that matches on some field causes a hold, by itself at that comparison or an earlier one, or by an earlier entry |
| Matcher.SingleEntryHolds | plk-chargeback.php:341-398 | on a one-entry list, an active entry is reported at its first matching comparison |
| Scenarios.PhoneLayouts | plk-chargeback.php:333 | "(AAA) BBB-CCCC" and "AAA-BBB-CCCC" both normalise to the bare digits, for any digit groups |
| Scenarios.SameNumberTwoLayouts | plk-chargeback.php:343 | "(555) 123-4567" and "555-123-4567" normalise to the same digits |
| Scenarios.FormattedPhoneHolds | plk-chargeback.php:366-370 | an order whose only overlap with the entry is the phone, written differently, is held on the billing phone |
| Scenarios.UpperCaseEmail | plk-chargeback.php:361 | "JANE@X.COM" equals "jane@x.com" under `strcasecmp` |
| Scenarios.EmailInAnyCaseHolds | plk-chargeback.php:360-364 | an order whose email matches the entry's in any letter case, with a different name and address, is held on the billing email whatever the two phones are, so in particular when only the email overlaps |
| Scenarios.NoOverlapPasses | plk-chargeback.php:341-399 | an order sharing no field with the only entry, the phone digits included, is not held |
| Scenarios.MixedCaseName | plk-chargeback.php:347 | "jane DOE" equals "Jane Doe" as a first-space-last full name |
| Scenarios.NameReportedBeforeEmail | plk-chargeback.php:345-364 | when name and email both match, the billing name is reported, because it is tried first |
| Store.Append | plk-chargeback.php:278-301 | the new list is the old list unchanged plus one entry at the end; its text fields are the sanitised form fields, its email is the sanitised email, and its `disable` is "no" |
| Store.EvaluateConcat | plk-chargeback.php:341-398 | on two lists laid end to end, a hold found in the first list is kept; otherwise the second list decides, with positions shifted past the first |
| Store.EvaluateAfterAppend | plk-chargeback.php:301 | appending an entry never changes an existing hold; an order the old list let through is held exactly when the new entry alone would hold it, at the new last position |
| Store.UpdateFlags | plk-chargeback.php:188-200 | with a submitted set, entry i's `disable` becomes "yes" iff i is in the set and "no" otherwise, and every other field and the length are unchanged; with no submitted set, the list is unchanged |
| Store.UpdateFlagsIdempotent | plk-chargeback.php:198-200 | submitting the same checkboxes twice gives the same list as submitting them once |
| Store.UpdatedParticipation | plk-chargeback.php:199 | after an update, an entry takes part in matching iff its box was unchecked, whatever its flag was before |
| Store.UpdatedHoldIsUnchecked | plk-chargeback.php:199 | after an update, any hold is caused by an entry whose box was unchecked |
| Store.AllCheckedHoldsNothing | plk-chargeback.php:198-200 | after an update with every box checked, no order is held |
| Store.UnsetAll | plk-chargeback.php:232-236 | after the `unset` loop, the remaining keys are the positions that were not submitted, each still holding its entry; submitted indices out of range are ignored |
| Store.ArrayValues | plk-chargeback.php:239 | `array_values` on the remaining slots yields the surviving entries in ascending key order, renumbered from 0 |
| Store.Delete | plk-chargeback.php:226-239 | deletion yields exactly `Survivors`: the entries at positions that were not submitted, in their old order |
| Store.KeptSpec | plk-chargeback.php:239 | the surviving positions ascend, and a position below the length survives iff it is not named |
| Store.KeptCount | plk-chargeback.php:232-239 | the number of survivors is the old length minus the number of distinct in-range positions named |
| Store.SurvivorsSpec | plk-chargeback.php:232-239 | survivor k is the old entry at the k-th kept position; kept positions ascend; a position survives iff it is not named; the new length is the old length minus the distinct in-range positions named |
| Store.OutOfRangeIgnored | plk-chargeback.php:233 | named positions outside the list do not change which positions are kept |
| Store.NothingNamedKeepsAll | plk-chargeback.php:226-239 | naming no position inside the list leaves the list unchanged |
| Store.DeleteFirstAndLast | plk-chargeback.php:232-239 | deleting positions {0, 2} from a three-entry list leaves only the old middle entry, now at position 0 |
| Store.DeleteCreatesNoHold | plk-chargeback.php:239 | deleting entries never makes the matcher hold an order it let through before |
| Sorting.DescendingSwapsArguments | plk-chargeback.php:260-263 | any `order` other than exactly "ASC" sorts descending: the callback agrees in sign with the ascending comparison of the swapped pair |
| Sorting.CompareAntisymmetric | plk-chargeback.php:261-262 | the `usort` callback flips sign when its arguments are swapped, in both directions, provided `strnatcmp` does |
| Sorting.Insert | plk-chargeback.php:258-264 | inserting an entry gives a list one longer holding the same entries plus the new one, whose head is either the new entry or the old head |
| Sorting.InsertSorted | plk-chargeback.php:258-264 | inserting an entry into a sorted list keeps it sorted under the callback |
| Sorting.Sort | plk-chargeback.php:257-267 | the sorted copy is a permutation of the list, and each entry compares at most equal to the next on the chosen column, with the comparison negated unless the order is "ASC" |

## Left out

- WordPress plumbing is not modelled: hooks, the admin menu, HTML rendering, nonce checks, `wp_safe_redirect` and `exit`. These are UI and request handling.
- Persistence is not modelled. `get_option`/`update_option` become the list passed in and returned.
- The `unserialize` call at line 322 is applied to an option value that WordPress has already decoded. What PHP does with a value that is already an array is not modelled: the matcher takes the decoded list, or `NotAList`.
- `wc_get_order` and the order getters are replaced by the `OrderContact` input. A missing field is the empty string.
- The sanitisers `sanitize_text_field` and `sanitize_email` are function parameters of `Append`. Their behaviour belongs to WordPress and is not modelled.
- Form values reach the model already converted. Checkbox keys and values become integers, and non-numeric keys, which can never name a position, are dropped. A missing `delete_entry` becomes the empty sequence.
- Text is modelled as sequences of characters, not bytes. Case folding covers ASCII letters only, as in `strcasecmp`. Multibyte text and locales are not modelled.
- Text.StrCaseCmpZeroIff: models the pre-8.2 `strcasecmp` result, the difference of the first differing folded characters, not the -1/0/1 of PHP 8.2. The matcher only reads whether the result is zero, which is the same in both.
- Sorting.Sort: `strnatcmp` is a parameter, assumed only to flip sign when its arguments are swapped. The contract states adjacent order and permutation. It does not state global order, which would need transitivity, and it does not state stability.
- Matcher.EvaluateIsFirstHit: entries that are not arrays inside a list are not modelled. Every list element is an `Entry`.
- Display positions and stored positions differ. The checkboxes carry positions in the sorted copy, while update and delete apply them to the stored list. The model takes positions as given; the two agree only when sorting leaves the list in place.
- Concurrent admin edits are not modelled. Each operation is a function of one list value.
