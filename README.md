# FreshMart barcode shopping assistant — a verified model

`nutri.py` is a point-of-sale assistant. It reads barcodes from a camera and looks
each one up in a fixed product table. It checks the product against the
shopper's allergy profile, then asks whether to add it to a cart. The cart is
bounded by an item limit chosen at start-up and keeps a running total of
discounted prices. This project models the deterministic core of that program
in Dafny:

- `wrappers.dfy`: the `Option` type.
- `text.dfy` (module `Text`): the ASCII string operations the program uses:
  `lower()`, `strip()`, `split(',')`, `' '.join(...)` and the substring test
  `in`.
- `catalog.dfy` (module `Catalog`): the ten-product table of
  `get_product_details` with its exact data, and the discounted price
  `price * (1 - discount_percent / 100)`.
- `allergy.dfy` (module `Allergy`): `check_allergies_and_requirements`.
- `profile.dfy` (module `Profile`): the allergy-profile comprehension at
  line 113.
- `debounce.dfy` (module `Debounce`): the last-barcode/last-time pair and the
  new-event test with its 4-second cooldown.
- `session.dfy` (module `Session`): the scan-to-decision loop of
  `run_barcode_scanner` as functions of its inputs, with the invariants it keeps.
  - A *tick* is one pass of the outer loop. It is a failed frame read, the
    quit key, or a frame with its decoded strings and two clock readings: one
    for the cooldown test at line 141 and one for the stamp at line 142.
  - The *answers* are the lines the y/n prompt reads.
- `scanner.dfy` (module `Scanner`): the same loops written as the program
  writes them.
  - The item-limit prompt loop.
  - A `ShoppingSession` class whose fields the inner and outer loops update in
    place.
  - The top-level `RunBarcodeScanner`.
  - `ShoppingSession.ProcessFrame` and `ShoppingSession.Run` are proved equal
    to the `Session` functions `FrameStep` and `Run`; `ReadItemLimit` and
    `RunBarcodeScanner` carry their own contracts.

The external collaborators become inputs:

- The camera, the decoder and the key poll become the sequence of ticks.
- The clock becomes the times carried by each frame.
- The console becomes three scripts: the allergy line, the item-limit
  attempts (each the result of `int()`, or `None` where it raised
  `ValueError`) and the y/n answers.

Notes on the program's behaviour:

- The warning texts are the code's: `WARNING: Contains allergen 'x'.` and
  `WARNING: Ingredient list contains 'x'.`, joined by single spaces.
- The cooldown is measured with the wall clock (`time.time()`), not a
  monotonic clock. So the times in a tick are arbitrary reals, with no
  ordering assumed between ticks.
- The stored barcode is cleared after every decision (line 169), so the
  cooldown never suppresses a read, as `Session.FirstBarcodeResolved` and
  `Session.RunKeepsInv` show. The rule itself is modelled in `Debounce`.

## Model

| member | source | states |
|---|---|---|
| Catalog.Lookup | nutri.py:7-74 | the result is a record exactly for a key of the table, is that key's record, and every record has a non-negative price and a discount between 0 and 100 |
| Catalog.KnownBarcodes | nutri.py:12-74 | a lookup succeeds exactly for the ten listed barcode strings and fails for every other string |
| Catalog.LookupExamples | nutri.py:12-74 | barcodes match as exact strings: the 10-digit key is found, and padded, prefixed or empty strings are not; trail mix costs 135 after its discount and kala chana 85 |
| Catalog.DiscountedPriceBounds | nutri.py:149-150 | a well-priced record is charged between 0 and its full price, and exactly its full price when there is no discount |
| Catalog.TableWellPriced | nutri.py:14-72 | every record of the table has a non-negative price and a discount percentage within 0..100 |
| Allergy.AllergenCaseInsensitive | nutri.py:79-82 | on a product record, a profile term equal to one of the record's allergens once lower-cased yields the allergen warning and never the ingredient warning |
| Allergy.IngredientCaseInsensitive | nutri.py:79-83 | on a product record, a profile term matching none of the lower-cased allergens yields the ingredient warning exactly when it occurs in some lower-cased ingredient, never when the record has no ingredients, and never the allergen warning |
| Allergy.EvaluateNotApplicable | nutri.py:77 | the verdict is the not-applicable message exactly when there is no product or the profile is empty |
| Allergy.EvaluateVerdict | nutri.py:81-84 | for a product and a non-empty profile the verdict is "Safe for you." exactly when no term warns, and otherwise the warnings joined by single spaces |
| Allergy.FeedbackLength | nutri.py:81-83 | each profile term produces at most one warning |
| Allergy.FeedbackAppend | nutri.py:81-83 | warnings come in profile-term order: the feedback for two concatenated term lists is the concatenation of their feedbacks |
| Allergy.FeedbackMembers | nutri.py:81-83 | a message is in the feedback exactly when some profile term produces it |
| Allergy.AllergenWins | nutri.py:82-83 | a term in the lower-cased allergen list yields the allergen warning and never the ingredient warning for that term |
| Allergy.IngredientMatch | nutri.py:83 | a term not among the allergens yields the ingredient warning exactly when it occurs as a substring of some lower-cased ingredient, never when the record has no ingredients, and never the allergen warning |
| Allergy.WarningsDistinct | nutri.py:82-83 | the two warning forms never coincide, and each determines the term it names |
| Allergy.WarningsMarked | nutri.py:82-84 | every warning opens with "WARNING: ", and neither "Not applicable…" nor "Safe for you." starts with its first letter 'W' |
| Allergy.NutsOnTrailMix | nutri.py:14-21 | profile ["nuts"] on the trail mix (allergen "Tree Nuts", ingredient "Cashew Nuts") gives only the ingredient warning |
| Allergy.NutsOnMuesli | nutri.py:32-39 | profile ["nuts"] on the muesli (allergen "Nuts") gives the allergen warning |
| Allergy.NutsOnKalaChana | nutri.py:23-30 | profile ["nuts"] on kala chana gives "Safe for you." |
| Text.LowerResult | nutri.py:113 | lower-casing keeps the length, leaves no upper-case letter, is idempotent and keeps blank strings blank |
| Text.LowerKeepsEnds | nutri.py:113 | lower-casing a string with non-blank ends keeps both ends non-blank |
| Text.TrimStartSpec | nutri.py:113 | trimming the front removes exactly a leading run of whitespace and leaves a non-blank first character |
| Text.TrimEndSpec | nutri.py:113 | trimming the back removes exactly a trailing run of whitespace and leaves a non-blank last character |
| Text.StripSpec | nutri.py:113 | stripping keeps a contiguous slice with only whitespace around it, leaves non-blank ends, and is empty exactly for blank input |
| Text.JoinAppend | nutri.py:84 | joining two non-empty lists puts exactly one separator between their joins |
| Text.Split | nutri.py:113 | splitting always yields at least one piece |
| Text.SplitPieces | nutri.py:113 | no piece of a split contains the separator |
| Text.JoinSplit | nutri.py:113 | joining the pieces with the separator gives back the input |
| Text.SplitJoin | nutri.py:113 | splitting the join of a non-empty list of separator-free parts gives back the parts |
| Text.SplitNoSep | nutri.py:113 | a string without the separator splits into itself alone |
| Text.SplitAppend | nutri.py:113 | splitting around one separator splits each side separately |
| Text.ContainsAt | nutri.py:83 | the substring test holds exactly when the term occurs at some position of the ingredient |
| Profile.ParseTerms | nutri.py:113 | every parsed term is non-empty, has no leading or trailing whitespace and is lower-case, and there are no more terms than comma-separated entries |
| Profile.ParseAppend | nutri.py:113 | terms keep their input order: parsing "a,b" gives the terms of a followed by those of b |
| Profile.ParseMembers | nutri.py:113 | a term is in the profile exactly when some comma-separated entry, stripped, is non-empty and lower-cases to it |
| Profile.ParseEmpty | nutri.py:113 | the profile is empty exactly when the answer holds only whitespace and commas |
| Profile.ParseSingle | nutri.py:113 | an answer without commas gives its stripped lower-cased self, or nothing when blank |
| Profile.ParseExample | nutri.py:113 | " Nuts, ,Milk " gives ["nuts", "milk"] |
| Debounce.AfterRecord | nutri.py:141-142 | after a new event for b at t1, a read of c at t2 is a new event exactly when c differs from b or t2 - t1 exceeds 4; at exactly 4 the same barcode is suppressed |
| Debounce.AfterReset | nutri.py:169 | once the stored barcode is cleared, every read is a new event, and the stored time is kept |
| Session.CartTotalAppend | nutri.py:162-163 | appending an item to the cart adds its discounted price to the sum |
| Session.CartTotalBounds | nutri.py:162-163 | the sum over a cart of well-priced records lies between 0 and the sum of full prices |
| Session.AppendWellPriced | nutri.py:162 | appending a well-priced record keeps every record of the cart well priced |
| Session.AcceptsExactly | nutri.py:161 | an item is added exactly when the answer is "y" or "Y" |
| Session.ResolveLedger | nutri.py:141-169 | a decision looks the barcode up; it appends the product and adds its discounted price only when the answer is yes; not-found and declined leave cart and total unchanged; it consumes one answer; it ends with the barcode cleared unless the prompt had no input |
| Session.FrameStepLedger | nutri.py:139-171 | a frame appends at most one product, one that was looked up from one of its strings, and a fully suppressed frame changes nothing |
| Session.FirstBarcodeResolved | nutri.py:139-142 | with no barcode stored, as between frames, the first string of a frame is always decided and the suppressed branch is not taken |
| Session.FrameKeepsInv | nutri.py:139-171 | a frame taken below the limit grows the cart by at most one item, only by appending, keeps every cart record well priced and the total its sum, and keeps the whole invariant (also cart within limit, no barcode stored) unless the prompt ran out of input |
| Session.RunKeepsInv | nutri.py:125-171 | the cart never exceeds the limit; it only grows by appending, by at most one item per tick; the total is always the sum of discounted prices and lies between 0 and the sum of full prices; the session reports a full cart exactly when the cart reaches the limit |
| Session.AcceptFresh | nutri.py:139-169 | with no profile and no barcode stored, a frame whose barcode is known and answered "y" appends that product, adds its discounted price and reports the not-applicable verdict |
| Session.TwoItemSession | nutri.py:125-171 | with limit 2, accepting the trail mix and then kala chana gives totals 135 and then 220, and the session ends with a full cart |
| Scanner.ReadItemLimit | nutri.py:116-123 | the limit is the first attempt that is a whole number above zero, all earlier attempts being invalid; there is no limit only when no attempt is valid |
| Scanner.ShoppingSession.constructor | nutri.py:113-127 | the profile is the parsed allergy answer, and the cart, total and debouncer start empty, at 0 and cleared |
| Scanner.ShoppingSession.ProcessFrame | nutri.py:139-171 | the inner loop leaves the fields and returns the decision exactly as the frame-step function prescribes |
| Scanner.ShoppingSession.Run | nutri.py:129-171 | the outer loop ends in the state and for the reason the session function prescribes; the cart stays within the limit and only grows; the total is its sum and lies between 0 and the sum of full prices; the session reports a full cart exactly at the limit |
| Scanner.RunBarcodeScanner | nutri.py:106-171 | the limit is the first valid attempt; a bill is produced exactly when the prompts do not run out; it holds the cart, total and end reason of the session; its cart is within the limit and its total is the cart's sum, between 0 and the sum of full prices |

## Left out

- The camera and the window (`cv2.VideoCapture`, `read`, `imshow`, `waitKey`, `release`, `destroyAllWindows`) are not modelled; they become ticks. The start-up failure when the camera does not open (lines 107-110) is not modelled.
- Barcode decoding (pyzbar `decode` and the UTF-8 decode of its data) is not modelled; a frame carries the decoded strings.
- Console output is not modelled: `display_summary`, the product and nutrition printout, all messages and screen clearing. The nutrition data is kept in the records but never read.
- `time.time()` and `time.sleep()` are not modelled; a frame carries the two clock readings.
- Scanner.ReadItemLimit: `int()` parsing is not modelled; each attempt is already the parsed value, or `None` for a line `int()` rejects.
- Input is modelled as three separate scripts. Python reads all of them from one stream, but in that order, so splitting them changes nothing.
- Scanner.RunBarcodeScanner: an uncaught `EOFError` at the item-limit prompt or the y/n prompt is modelled as "no bill"; the traceback is not modelled.
- Scanner.RunBarcodeScanner: input running out at the allergy prompt (line 113) is not modelled; the allergy line is always supplied.
- Session.FrameStep: line 141 reads the clock afresh for every string of a frame that it tests, while the model tests all strings of a frame against one reading. The two differ only when a string after the first is tested, which needs a stored barcode; no barcode is ever stored at that point (`Session.FirstBarcodeResolved`), so the difference is never reached.
- Catalog.DiscountedPrice: prices and totals are exact reals, so float rounding in the discounted price and the running total is not modelled.
- Text.Lower: only ASCII is modelled; Python's Unicode case mapping of other letters is not.
- Text.Strip: only ASCII whitespace is modelled; Python's `strip()` also removes Unicode whitespace.
- Scanner.ShoppingSession.ProcessFrame: the verdict is computed only to be displayed, so it appears in the decision value and nowhere else.
