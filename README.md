# Expense Tracker — a verified model of its core

Expense Tracker is a small web application. An Express/MongoDB back end stores each user's
expenses, with the text fields encrypted. A React front end registers users, lists, filters,
edits and deletes expenses, and charts spending against a budget. This project models the parts
of it that hold logic and proves what that logic does:

- **The field-encryption envelope** (`Encryption`, over `Hex`, `Utf8`, `Cbc` and `Bytes`).
  `encrypt` writes a fresh 16-byte IV in hex, a `:`, then the hex of the AES-256-CBC
  ciphertext of the UTF-8 text. `decrypt` splits on `:` and reverses that.
  - The AES block function is a `BlockCipher` value: a pair of functions. The ghost predicate
    `Cbc.Inverts` says that one undoes the other, and the round-trip lemmas require it.
  - CBC chaining follows NIST SP 800-38A section 6.2. Padding is PKCS#7, as in RFC 5652
    section 6.3.
  - Hex decoding is as lenient as Node's `Buffer.from(s, 'hex')`: it accepts both cases, and
    stops at the first pair that is not hex.
  - UTF-8 decoding replaces ill-formed input with U+FFFD, maximal subpart at a time, as the
    WHATWG Encoding Standard specifies.
  - `Decrypt` reports the errors Node would throw, in Node's order:
    1. invalid IV length;
    2. invalid key length;
    3. a missing ciphertext part;
    4. odd hex;
    5. a final block of the wrong length;
    6. bad padding ("bad decrypt").
- **The encrypted expense store** (`ExpenseController`). The store is a class holding a
  map from record id to stored record, and the four request handlers are its methods. Each
  method is specified by pure functions on the map (`SealBody`, `Fetch`, `Revise`), and the
  lemmas relate successive operations.
- **Registration validators** (`Register`). These are the password checks and strength score,
  the name, email and photo rules, and the `validateForm` / `handleChange` /
  `handleFileChange` state of the page. `RegisterPage` is a class.
  - The email regular expression `^[^\s@]+@[^\s@]+\.[^\s@]+$` is given an exact structural
    characterisation, `EmailShape`.
  - `JsString` models the JavaScript string operations used. These are `trim` and `\s`, with
    the exact ECMAScript WhiteSpace and LineTerminator set, and `length` in UTF-16 code units.
    They also include `toLowerCase` (ASCII letters), `includes`, `slice`, `split`, string
    comparison, and decimal number text.
- **Client-side list logic** (`Dashboard`, `SpendingTrendChart`, `ExpenseChart`, over
  `Lists`, `Grouping` and `Client`). This covers:
  - filtering, the date sort, delete-by-id and the total's independence of order;
  - budget initialisation from `localStorage` (a `Storage` class), and logout;
  - the edit-form state machine (an `Editor` class);
  - the budget percentage and warning level;
  - grouping expenses by date prefix or by category with exact sums. The in-place grouping
    loop is `Grouping.Accumulate`, a method proved against `TotalFor` and `Firsts`.

Amounts are exact `real`s: no floating point is modelled. Clocks, randomness and configuration
become parameters:
- the IV (`ivs`);
- the key text (`LoadKey`);
- the new record id (`newId`);
- the `parseFloat` and `Date` functions (`parse`, `time`);
- the colour generator (`color`).

Node decodes hex case-insensitively. Upper-casing a hex letter of the ciphertext part therefore
gives a different stored string that still decrypts to the original text, so such tampering
goes undetected (`Encryption.CaseChangeUndetected`).

## Model

| member | source | states |
|---|---|---|
| Hex.Encode | backend/utils/encryption.js:11-13 | `toString('hex')` output is exactly twice as long as the bytes and uses only the digits 0-9a-f |
| Hex.Decode | backend/utils/encryption.js:18 | `Buffer.from(s,'hex')` yields one byte per leading well-formed pair (either case) and stops at the first pair that is not hex or at a trailing odd character |
| Hex.DigitValueOfChar | backend/utils/encryption.js:13-18 | the value of each digit written by the encoder reads back as the same nibble |
| Hex.EncodeAppend | backend/utils/encryption.js:11-12 | hex of `update` followed by hex of `final` is the hex of the concatenated ciphertext |
| Hex.DecodeEncode | backend/utils/encryption.js:13-18 | decoding the encoder's output returns the original bytes |
| Hex.EncodeInjective | backend/utils/encryption.js:9-13 | different byte strings have different hex |
| Hex.DecodeIgnoresCase | backend/utils/encryption.js:18-20 | two strings whose characters have the same digit values decode alike, so letter case is lost |
| Hex.DecodeNonHex | backend/utils/encryption.js:18 | text whose first character is not a hex digit decodes to no bytes |
| Utf8.EncodeChar | backend/utils/encryption.js:11 | each character becomes 1 to 4 bytes, and exactly the ASCII ones become a single byte |
| Utf8.Encode | backend/utils/encryption.js:11 | the UTF-8 form of a text is at least as long as the text |
| Utf8.PrefixLength | backend/utils/encryption.js:20-21 | the well-formed prefix of a multi-byte sequence is between 1 and the expected length and fits the input |
| Utf8.CodePoint | backend/utils/encryption.js:20-21 | a complete well-formed sequence decodes to a non-ASCII scalar value outside the surrogate range |
| Utf8.Decode | backend/utils/encryption.js:20-21 | the `utf8` output of the decipher: never more characters than bytes |
| Utf8.DecodeWellFormed | backend/utils/encryption.js:20-21 | a complete well-formed sequence decodes to its code point followed by the decoding of the rest |
| Utf8.EncodeTwo | backend/utils/encryption.js:11-21 | a character of two UTF-8 bytes decodes back, whatever follows |
| Utf8.EncodeThree | backend/utils/encryption.js:11-21 | a character of three UTF-8 bytes decodes back, whatever follows |
| Utf8.EncodeFour | backend/utils/encryption.js:11-21 | a character of four UTF-8 bytes decodes back, whatever follows |
| Utf8.DecodeChar | backend/utils/encryption.js:11-21 | any character's encoding decodes back to it, whatever follows |
| Utf8.DecodeEncode | backend/utils/encryption.js:11-21 | decoding the UTF-8 encoding of any text returns that text |
| Cbc.XorBlock | backend/utils/encryption.js:4 | the chaining XOR of two blocks, undone byte by byte by XOR with the second block |
| Cbc.XorBlockCancel | backend/utils/encryption.js:4 | XOR with the same block twice gives the block back |
| Cbc.Pad | backend/utils/encryption.js:12 | PKCS#7 padding (RFC 5652 section 6.3): the result is a whole number of blocks, 1 to 16 bytes longer, starts with the input, and every pad byte equals the pad length |
| Cbc.Unpad | backend/utils/encryption.js:21 | a removed padding leaves a strict prefix of the input |
| Cbc.UnpadIffPad | backend/utils/encryption.js:12-21 | unpadding `r` gives `p` exactly when padding `p` gives `r` |
| Cbc.UnpadPad | backend/utils/encryption.js:12-21 | unpadding a padded text returns it |
| Cbc.Encrypt | backend/utils/encryption.js:4-12 | CBC encryption (NIST SP 800-38A section 6.2) preserves the length of whole-block input |
| Cbc.Decrypt | backend/utils/encryption.js:4-21 | CBC decryption preserves the length of whole-block input |
| Cbc.DecryptEncrypt | backend/utils/encryption.js:10-21 | with an inverting block cipher, CBC decryption undoes CBC encryption for any IV and key |
| Encryption.LoadKey | backend/utils/encryption.js:5 | an unset `ENC_KEY` fails, a set one gives at most half its length in key bytes, and one of 64 hex digits gives exactly the 32-byte key |
| Encryption.ConfiguredRoundTrip | backend/utils/encryption.js:5-23 | an `ENC_KEY` of 64 hex digits loads a key under which every text round-trips through `encrypt` and `decrypt`, for any IV |
| Encryption.CipherBytes | backend/utils/encryption.js:4-12 | the ciphertext is a whole number of blocks, strictly longer than the text's UTF-8 bytes and at most one block longer |
| Encryption.Encrypt | backend/utils/encryption.js:4-14 | fails exactly when the key is not 32 bytes; otherwise the result is the IV's 32 lowercase hex digits, one `:`, then the lowercase hex of at least one block of ciphertext, strictly longer than the text's UTF-8 bytes and at most one block longer |
| Encryption.Decrypt | backend/utils/encryption.js:16-23 | input without a `:` fails instead of returning text |
| Encryption.DecryptSplit | backend/utils/encryption.js:17 | `decrypt` always has at least one split part, and its result is decided by the parts of `split(':')` |
| Encryption.DecryptParts | backend/utils/encryption.js:17-21 | fewer than two parts fail, and a first part that does not decode to 16 bytes fails with the IV-length error, before any key check |
| Encryption.DecipherBlocks | backend/utils/encryption.js:19-21 | deciphering whole blocks fails only with the bad-decrypt (padding) error |
| Encryption.PartsBeyondTwoIgnored | backend/utils/encryption.js:17 | only the first two split parts decide the result |
| Encryption.SplitStored | backend/utils/encryption.js:13-17 | splitting the joined `ivHex:ctHex` on `:` recovers exactly the two hex parts |
| Encryption.DecryptWholeBlocks | backend/utils/encryption.js:18-21 | parts that decode to a 16-byte IV and to whole ciphertext blocks, with a valid key, pass every check and go to the block decipher |
| Encryption.DecryptJoined | backend/utils/encryption.js:13-21 | decrypting an encoded `iv:ciphertext` string deciphers exactly that IV and ciphertext |
| Encryption.DecryptEncrypt | backend/utils/encryption.js:8-23 | with an inverting block cipher and a 32-byte key, encryption succeeds for every text and IV, and decryption returns the text |
| Encryption.DistinctIvsDistinctStored | backend/utils/encryption.js:9-13 | encryptions under different IVs give different stored strings, whatever the texts |
| Encryption.IgnoresThirdPart | backend/utils/encryption.js:17 | anything after a second `:` is ignored |
| Encryption.DecryptByDigitValue | backend/utils/encryption.js:18-20 | ciphertext hex strings with the same digit values decrypt alike |
| Encryption.CaseChangeUndetected | backend/utils/encryption.js:11-21 | upper-casing a hex letter of the ciphertext part of a stored string changes the string but still decrypts to the original text |
| Encryption.BadIvFails | backend/utils/encryption.js:17-19 | a first part that does not decode to 16 bytes fails with the IV-length error, whatever follows |
| ExpenseController.ToText | backend/controllers/expenseController.js:12 | `amount.toString()` throws exactly on a missing amount or one whose `toString` cannot be called (such as `{"toString": 1}`). A text amount stays as it is, an integral number becomes text that parses back to it, and another boolean, object or array amount becomes its own `toString()` text |
| ExpenseController.SealText | backend/controllers/expenseController.js:10-11 | encrypting a field succeeds exactly for a present text and a 32-byte key, and the result decrypts back to the text |
| ExpenseController.SealBody | backend/controllers/expenseController.js:8-14 | the sealed fields exist exactly when title and category are text, `amount.toString()` does not throw and the key is valid. Title, category and amount text are stored encrypted and decrypt back; the date is kept unencrypted |
| ExpenseController.Echo | backend/controllers/expenseController.js:18-27 | the reply's title and category are slices of what was sent with only white space cut off, have no white space at either end, and equal what was sent exactly when that had none; the amount text is not trimmed |
| ExpenseController.IntegerAmountReadsBack | backend/controllers/expenseController.js:12-41 | an integral amount is stored as text that decrypts and then parses back to the same number |
| ExpenseController.OpenSealed | backend/controllers/expenseController.js:8-45 | round trip of a create: with an inverting block cipher, the stored record reads back as exactly the fields sent, untrimmed, with its owner and date |
| ExpenseController.FetchFailsOnUnreadable | backend/controllers/expenseController.js:35-50 | one of the caller's records whose title, category or amount fails to decrypt makes the whole listing the 500 "Failed to fetch expenses" reply |
| ExpenseController.OpenAll | backend/controllers/expenseController.js:36-50 | the list succeeds exactly when every record opens, with one view per record; otherwise the reply is the 500 "Failed to fetch expenses" |
| ExpenseController.Fetch | backend/controllers/expenseController.js:33-51 | a successful fetch returns views of exactly the requesting user's records |
| ExpenseController.OpenRevised | backend/controllers/expenseController.js:57-67 | an updated record reads back as the new fields, untrimmed, under its old owner, with the new date or, when none was given, the old one |
| ExpenseController.ExpenseStore.constructor | backend/models/expense.js:3-11 | the store starts empty |
| ExpenseController.ExpenseStore.CreateExpense | backend/controllers/expenseController.js:4-31 | a title or category that is not text, an amount whose `toString()` throws, or a bad key stores nothing and answers the 500 "Failed to create expense". Otherwise exactly one record is added under the new id, owned by `req.userId` and holding the sealed fields, and the trimmed echo is the answer |
| ExpenseController.ExpenseStore.GetExpenses | backend/controllers/expenseController.js:33-51 | answers the requesting user's decrypted records, and changes nothing |
| ExpenseController.ExpenseStore.UpdateExpense | backend/controllers/expenseController.js:53-82 | an unknown id, a title or category that is not text, an amount whose `toString()` throws, or a bad key changes nothing and answers the 500 "Failed to update expense". Otherwise only that record changes, whatever its owner, with its user kept |
| ExpenseController.ExpenseStore.DeleteExpense | backend/controllers/expenseController.js:84-91 | removes the id if present, whatever its owner, leaves every other record, and always answers "Deleted" |
| ExpenseController.SealedReadsBack | backend/controllers/expenseController.js:8-16 | every sealed field decrypts back to what the request sent |
| ExpenseController.OpenAllInsert | backend/controllers/expenseController.js:16-45 | adding one readable record adds exactly its view to the listing |
| ExpenseController.OpenAllRemove | backend/controllers/expenseController.js:35-45 | removing a record removes exactly its view from the listing |
| ExpenseController.FetchAfterCreate | backend/controllers/expenseController.js:8-16 | after a create, the owner's listing is the old one plus the new record with its untrimmed fields |
| ExpenseController.ReplyTrimsStoreDoesNot | backend/controllers/expenseController.js:10-40 | when the title has surrounding white space, the title read back later differs from the title the create reply showed |
| ExpenseController.FetchOtherUser | backend/controllers/expenseController.js:9-35 | another user's new record does not change a user's listing |
| ExpenseController.FetchAfterDelete | backend/controllers/expenseController.js:84-91 | after a delete, the listing is the old one without that id |
| ExpenseController.FetchAfterUpdate | backend/controllers/expenseController.js:57-67 | after an update, the owner's listing has that one view replaced and the others unchanged |
| JsString.Length | frontend/Expense-tracker/src/pages/Register.jsx:18-40 | a string's `length` in UTF-16 units is between its number of characters and twice that, and is 0 only for the empty string |
| JsString.TrimStart | backend/controllers/expenseController.js:21 | removes exactly the leading white space |
| JsString.TrimEnd | backend/controllers/expenseController.js:21 | removes exactly the trailing white space |
| JsString.Trim | frontend/Expense-tracker/src/pages/Register.jsx:38-44 | `trim()` is the contiguous slice of the input that starts after its leading white space, with only white space cut from the back, and neither end of a non-empty result is white space |
| JsString.TrimEmpty | frontend/Expense-tracker/src/pages/Register.jsx:38-44 | the trimmed text is empty exactly when every character is white space |
| JsString.TrimFixed | backend/controllers/expenseController.js:21-22 | `trim()` returns a string unchanged exactly when it has no white space at either end, so a reply field is what was sent exactly then, and trimming a trimmed string changes nothing |
| JsString.LowerChar | frontend/Expense-tracker/src/pages/Dashboard.jsx:140 | the result is never an upper-case letter; a character changes exactly when it is A-Z, and then becomes the same letter in lower case |
| JsString.Lower | frontend/Expense-tracker/src/pages/Dashboard.jsx:140 | `toLowerCase` keeps the length, leaves no A-Z letter, agrees with the input up to letter case, and returns the input itself exactly when it had no A-Z letter |
| JsString.Includes | frontend/Expense-tracker/src/pages/Dashboard.jsx:140 | `includes` holds exactly when the text occurs at some position |
| JsString.Take | frontend/Expense-tracker/src/pages/Dashboard.jsx:108-138 | `slice(0, n)` is the prefix of length n, or the whole string when it is shorter |
| JsString.IndexOf | frontend/Expense-tracker/src/pages/Register.jsx:46 | the first position of a character that occurs |
| JsString.Split | backend/utils/encryption.js:17 | `split(':')` gives at least one part, no part contains the separator, and joining the parts with it gives the input back |
| JsString.SplitNone | backend/utils/encryption.js:17 | a string without the separator splits into itself alone |
| JsString.SplitAt | backend/utils/encryption.js:17 | a separator-free prefix followed by the separator becomes the first part |
| JsString.LexLeTotal | frontend/Expense-tracker/src/components/SpendingTrendChart.jsx:30 | any two strings are ordered one way or the other |
| JsString.LexLeTransitive | frontend/Expense-tracker/src/pages/Dashboard.jsx:141-142 | string comparison is transitive |
| JsString.LexLeAntisymmetric | frontend/Expense-tracker/src/components/SpendingTrendChart.jsx:30 | strings ordered both ways are equal |
| JsString.Digits | backend/controllers/expenseController.js:12 | decimal digits of a natural number, with no leading zero |
| JsString.IntegerToString | backend/controllers/expenseController.js:12 | `toString()` of an integer is never empty |
| JsString.ParseInteger | backend/controllers/expenseController.js:41 | only non-empty text parses |
| JsString.DigitsValueOfDigits | backend/controllers/expenseController.js:12-41 | the digits of a natural number read back as that number |
| JsString.ParseNegative | backend/controllers/expenseController.js:41 | a minus sign followed by digits reads as the negated value |
| JsString.ParseIntegerToString | backend/controllers/expenseController.js:12-41 | the text of any integer amount reads back as the same integer |
| Register.AnyInRange | frontend/Expense-tracker/src/pages/Register.jsx:19-21 | a character class test such as `/[A-Z]/` holds exactly when some character lies in the range |
| Register.AnySpecial | frontend/Expense-tracker/src/pages/Register.jsx:22 | the special-character test holds exactly when some character is one of `!@#$%^&*(),.?":{}\|<>` |
| Register.ValidatePassword | frontend/Expense-tracker/src/pages/Register.jsx:16-25 | the five flags: length at least 8, an upper-case letter, a lower-case letter, a digit, a special character, each in both directions |
| Register.Score | frontend/Expense-tracker/src/pages/Register.jsx:29 | the number of true flags is at most 5, is 5 exactly when all hold and 0 exactly when none does |
| Register.PasswordStrength | frontend/Expense-tracker/src/pages/Register.jsx:27-33 | weak exactly when the score is below 2, medium exactly when it is 2 or 3, strong exactly when it is at least 4 |
| Register.NameError | frontend/Expense-tracker/src/pages/Register.jsx:38-42 | "Name is required" exactly when the name is all white space, "at least 2 characters" exactly when the trimmed length is 1, no error exactly when it is at least 2 |
| Register.PlainAt | frontend/Expense-tracker/src/pages/Register.jsx:46 | a run of `[^\s@]` characters keeps that property on any slice |
| Register.PatternHasShape | frontend/Expense-tracker/src/pages/Register.jsx:46 | a match of the email regular expression has the structural shape |
| Register.IndexOfFirst | frontend/Expense-tracker/src/pages/Register.jsx:46 | a position whose character is absent from the prefix before it is the first occurrence |
| Register.ShapeHasPattern | frontend/Expense-tracker/src/pages/Register.jsx:46 | a string of the structural shape matches the email regular expression |
| Register.EmailPatternIffShape | frontend/Expense-tracker/src/pages/Register.jsx:46 | the email regular expression matches exactly the strings with no white space, exactly one `@` after a non-empty local part, and a `.` in the domain with a character on each side |
| Register.EmailError | frontend/Expense-tracker/src/pages/Register.jsx:44-48 | "Email is required" exactly when the email is all white space, "valid email" exactly when it is not blank and the untrimmed text does not match, no error exactly when it matches |
| Register.PasswordError | frontend/Expense-tracker/src/pages/Register.jsx:50-57 | "Password is required" exactly for the empty password; no error exactly when it is non-empty and the length, upper-case, lower-case and digit flags hold; the special flag is not required |
| Register.AcceptedPasswordIsStrong | frontend/Expense-tracker/src/pages/Register.jsx:27-57 | every password the form accepts is rated strong |
| Register.PhotoError | frontend/Expense-tracker/src/pages/Register.jsx:80-88 | the size error exactly above 5·1024·1024 bytes, else the type error exactly when the type does not start with `image/`, else none |
| Register.CollectErrors | frontend/Expense-tracker/src/pages/Register.jsx:36-60 | `newErrors` records exactly the fields with an error, never the photo, and the result is true exactly when no error was recorded, that is when `newErrors` is empty |
| Register.RegisterPage.constructor | frontend/Expense-tracker/src/pages/Register.jsx:7-11 | the form starts with empty fields, no errors and no photo |
| Register.RegisterPage.ValidateForm | frontend/Expense-tracker/src/pages/Register.jsx:35-61 | the errors become exactly the name, email and password errors of the current form, and the result is true exactly when there are none |
| Register.RegisterPage.HandleChange | frontend/Expense-tracker/src/pages/Register.jsx:63-70 | the edited field takes the new value, and that field's error is cleared to "" if it was set; nothing else changes |
| Register.RegisterPage.HandleFileChange | frontend/Expense-tracker/src/pages/Register.jsx:77-93 | no file changes nothing; a rejected file sets the photo error and keeps the old photo; an accepted file becomes the photo and clears its error |
| Lists.Filter | frontend/Expense-tracker/src/pages/Dashboard.jsx:137-144 | `filter` keeps only passing elements, and each passing element as often as it occurred |
| Lists.FilterAppend | frontend/Expense-tracker/src/pages/Dashboard.jsx:137-144 | filtering keeps the original order: it distributes over concatenation |
| Lists.FilterAll | frontend/Expense-tracker/src/pages/Dashboard.jsx:137 | a test every element passes returns the list itself |
| Lists.DistinctMultiset | frontend/Expense-tracker/src/components/SpendingTrendChart.jsx:30 | a list is duplicate-free exactly when each element occurs at most once |
| Lists.PermutationDistinct | frontend/Expense-tracker/src/components/SpendingTrendChart.jsx:30 | rearranging a duplicate-free list keeps it duplicate-free |
| Lists.SameElements | frontend/Expense-tracker/src/components/SpendingTrendChart.jsx:30 | rearranging a list keeps its set of members |
| Lists.ConsSorted | frontend/Expense-tracker/src/pages/Dashboard.jsx:44 | a head that precedes a sorted tail gives a sorted list |
| Lists.PrecedesElements | frontend/Expense-tracker/src/pages/Dashboard.jsx:44 | an element that precedes a list precedes any rearrangement of it |
| Lists.Insert | frontend/Expense-tracker/src/pages/Dashboard.jsx:44 | inserting into a sorted list gives a sorted list with the element added |
| Lists.Sort | frontend/Expense-tracker/src/pages/Dashboard.jsx:44 | `sort` with a total preorder gives a sorted rearrangement of its input |
| Grouping.Firsts | frontend/Expense-tracker/src/components/ExpenseChart.jsx:13-19 | `Object.keys` of the accumulator: without duplicates and exactly the keys that occur |
| Grouping.FirstIndex | frontend/Expense-tracker/src/components/ExpenseChart.jsx:15-17 | the position of the entry that first inserts a key: it has that key and no earlier entry does |
| Grouping.FirstsOrder | frontend/Expense-tracker/src/components/ExpenseChart.jsx:13-19 | the keys come in order of first insertion: an earlier label's first entry precedes a later label's first entry |
| Grouping.FirstsCover | frontend/Expense-tracker/src/components/ExpenseChart.jsx:15-19 | every entry's key is a label |
| Grouping.TotalForAbsent | frontend/Expense-tracker/src/components/SpendingTrendChart.jsx:27 | a key that never occurs totals 0, as `grouped[key] \|\| 0` starts it |
| Grouping.TotalForAllKeyed | frontend/Expense-tracker/src/components/SpendingTrendChart.jsx:27 | when every entry has the same key, that key's accumulated value is the sum of all amounts |
| Grouping.Lookup | frontend/Expense-tracker/src/components/SpendingTrendChart.jsx:31 | `labels.map(label => grouped[label])` is aligned with the labels |
| Grouping.SumTotalsSnoc | frontend/Expense-tracker/src/components/SpendingTrendChart.jsx:27 | one more entry adds its amount to the total of its own key only |
| Grouping.SumTotalsIsTotal | frontend/Expense-tracker/src/components/ExpenseChart.jsx:13-20 | summing the per-key totals over duplicate-free keys that cover all entries gives the grand total |
| Grouping.SumTotalsEmpty | frontend/Expense-tracker/src/components/ExpenseChart.jsx:13 | no entries give zero totals |
| Grouping.SumLookup | frontend/Expense-tracker/src/components/SpendingTrendChart.jsx:31 | summing the looked-up values is summing the per-key totals |
| Grouping.LookupIsTotal | frontend/Expense-tracker/src/components/SpendingTrendChart.jsx:23-31 | the looked-up values of covering, duplicate-free keys sum to the grand total |
| Grouping.Accumulate | frontend/Expense-tracker/src/components/SpendingTrendChart.jsx:21-28 | the in-place accumulation loop yields the keys in first-insertion order and, for exactly the keys that occur, the sum of their amounts |
| Client.Spending | frontend/Expense-tracker/src/pages/Dashboard.jsx:152 | the `reduce` total of the amounts; with no negative amount it is never negative |
| Client.SpendingAppend | frontend/Expense-tracker/src/pages/Dashboard.jsx:152 | the running total splits over a concatenation |
| Client.SpendingRemove | frontend/Expense-tracker/src/pages/Dashboard.jsx:152 | taking one expense out takes its amount out of the total |
| Client.SpendingPermutation | frontend/Expense-tracker/src/pages/Dashboard.jsx:152 | any rearrangement of the expenses has the same total |
| SpendingTrendChart.Key | frontend/Expense-tracker/src/components/SpendingTrendChart.jsx:24-26 | the group key is the first 7 date characters in monthly mode and the first 10 in daily mode (or the whole date when shorter), and a day's key begins with its month's key |
| SpendingTrendChart.EntriesTotal | frontend/Expense-tracker/src/components/SpendingTrendChart.jsx:23-27 | the entries total the expenses' total |
| SpendingTrendChart.KeysOfEntries | frontend/Expense-tracker/src/components/SpendingTrendChart.jsx:23-26 | a key of the entries is exactly a key of some expense's date |
| SpendingTrendChart.LexLeIsPreorder | frontend/Expense-tracker/src/components/SpendingTrendChart.jsx:30 | the default `sort` comparison is a total preorder |
| SpendingTrendChart.SortLabels | frontend/Expense-tracker/src/components/SpendingTrendChart.jsx:30 | sorting distinct keys gives a rearrangement in strictly ascending string order |
| SpendingTrendChart.TrendChart.constructor | frontend/Expense-tracker/src/components/SpendingTrendChart.jsx:17 | the mode starts daily |
| SpendingTrendChart.TrendChart.Toggle | frontend/Expense-tracker/src/components/SpendingTrendChart.jsx:74 | the mode alternates between daily and monthly |
| SpendingTrendChart.TrendChart.Render | frontend/Expense-tracker/src/components/SpendingTrendChart.jsx:19-31 | no chart exactly for no expenses. Otherwise the labels are strictly ascending and exactly the date keys present, `values[i]` is the total for `labels[i]`, and the values sum to the total spending |
| ExpenseChart.EntriesTotal | frontend/Expense-tracker/src/components/ExpenseChart.jsx:13-17 | the entries total the expenses' total |
| ExpenseChart.KeysOfEntries | frontend/Expense-tracker/src/components/ExpenseChart.jsx:15 | a key of the entries is exactly a category present |
| ExpenseChart.Render | frontend/Expense-tracker/src/components/ExpenseChart.jsx:11-21 | no chart exactly for no expenses. Otherwise the labels are the distinct categories in first-occurrence order, the values are their totals and sum to the total spending, and there is one colour per label |
| Dashboard.NewestFirst | frontend/Expense-tracker/src/pages/Dashboard.jsx:44 | the comparator `new Date(b.date) - new Date(a.date)` read as "newest first" is a total preorder, as the sort needs |
| Dashboard.SortByDate | frontend/Expense-tracker/src/pages/Dashboard.jsx:44 | the fetched list is a rearrangement of the response, newest date first |
| Dashboard.WithoutId | frontend/Expense-tracker/src/pages/Dashboard.jsx:95 | no expense with the deleted id remains, and every other expense remains as often as before |
| Dashboard.WithoutIdKeepsOrder | frontend/Expense-tracker/src/pages/Dashboard.jsx:95 | the delete filter keeps order, and leaves a list without that id unchanged |
| Dashboard.Passes | frontend/Expense-tracker/src/pages/Dashboard.jsx:138-143 | every expense passes when all three filters are cleared, and with both dates set nothing passes unless the start date is not after the end date |
| Dashboard.FilteredExpenses | frontend/Expense-tracker/src/pages/Dashboard.jsx:137-144 | the filtered list holds exactly the expenses that pass the category, start and end tests, as often as they occur |
| Dashboard.FilteredKeepsOrder | frontend/Expense-tracker/src/pages/Dashboard.jsx:137-144 | filtering keeps the original order |
| Dashboard.ClearedShowsAll | frontend/Expense-tracker/src/pages/Dashboard.jsx:137-144 | with all filters cleared ("Clear Filters") the list is the full list |
| Dashboard.CategoryOnly | frontend/Expense-tracker/src/pages/Dashboard.jsx:140 | with only a category filter, an expense passes exactly when its lower-cased category includes the lower-cased filter |
| Dashboard.StartBudget | frontend/Expense-tracker/src/pages/Dashboard.jsx:24-35 | a new user gets budget 0, with `budget` set to "" and `isNewUser` removed; otherwise nothing changes, and a non-empty saved value is parsed while an absent or empty one gives 10000 |
| Dashboard.NewUserBudgetThenDefault | frontend/Expense-tracker/src/pages/Dashboard.jsx:24-35 | after registration sets `isNewUser`, the first load gives 0 and the next gives 10000 |
| Dashboard.Storage.constructor | frontend/Expense-tracker/src/pages/Dashboard.jsx:25 | the storage holds the given items |
| Dashboard.Storage.InitBudget | frontend/Expense-tracker/src/pages/Dashboard.jsx:24-35 | the initialiser's budget and the new storage are those of `StartBudget` on the old storage |
| Dashboard.Storage.Logout | frontend/Expense-tracker/src/pages/Dashboard.jsx:116-120 | exactly the `token` and `budget` keys are removed, and the route is `/login` |
| Dashboard.Editor.constructor | frontend/Expense-tracker/src/pages/Dashboard.jsx:11-18 | not editing, no id, empty form |
| Dashboard.Editor.EditClick | frontend/Expense-tracker/src/pages/Dashboard.jsx:101-109 | editing that expense's id, with title, amount, category and the first 10 date characters in the form |
| Dashboard.Editor.CancelEdit | frontend/Expense-tracker/src/pages/Dashboard.jsx:83-87 | back to not editing, no id and an empty form |
| Dashboard.Editor.Submit | frontend/Expense-tracker/src/pages/Dashboard.jsx:61-81 | a PUT of the form to the edited id when editing, else a POST; success resets to not editing with an empty form, and failure changes nothing |
| Dashboard.TotalAfterSort | frontend/Expense-tracker/src/pages/Dashboard.jsx:152 | the total over the date-sorted list equals the total over the response |
| Dashboard.BudgetPercentage | frontend/Expense-tracker/src/pages/Dashboard.jsx:153 | capped at 100. With budget 0 it is NaN for no spending and −Infinity for negative spending; otherwise it is the ratio times 100 or the cap |
| Dashboard.WarningLevel | frontend/Expense-tracker/src/pages/Dashboard.jsx:154 | critical exactly above 90, a warning exactly above 70 up to 90, safe at 70 or below and for a percentage that is not a finite number |
| Dashboard.LevelsOfPositiveBudget | frontend/Expense-tracker/src/pages/Dashboard.jsx:153-154 | with a positive budget: critical exactly above 90% of it, a warning exactly above 70% up to 90%, safe exactly at 70% or below |
| Dashboard.ShareAbove | frontend/Expense-tracker/src/pages/Dashboard.jsx:153 | the share of a positive budget exceeds t exactly when the total exceeds t times the budget |
| Dashboard.LevelsOfZeroBudget | frontend/Expense-tracker/src/pages/Dashboard.jsx:153-154 | with budget 0 any positive spending is critical, and otherwise the level is safe |

## Left out

- The AES round function is not modelled. It is an abstract `BlockCipher`, and round trips require `Cbc.Inverts`.
- `crypto.randomBytes` and `dotenv` are not modelled: the IV and the `ENC_KEY` text are parameters.
- The cipher streams' `update`/`final` split is one pass, since only the concatenation is observable.
- Floating point is left out. Amounts are exact reals, and `parseFloat` is a parameter `parse`.
  - A stored amount is text and, on the server, a number amount is an integer with its decimal `toString`.
  - `toFixed` and the tooltip percentage are not modelled.
  - The budget's −0 and the value of `Infinity` are represented only as the `Percent` cases.
- `Date` objects (parsing, `toISOString`, `toLocaleDateString`) are left out.
  - The sort takes a `time` function.
  - Dates are the ISO-8601 text the server sends, and the filter's `toISOString().slice(0, 10)` is the first 10 characters of that text.
- `toLowerCase` is modelled for ASCII letters only, since full Unicode case mapping is beyond the model.
- Lone surrogates in strings are not modelled.
  - Strings are sequences of Unicode scalar values.
  - String comparison is by scalar value, which differs from JavaScript's UTF-16 order above U+FFFF.
- `Object.keys` moving integer-like category names to the front is not modelled: keys are in insertion order.
- `getRandomColor` is random. It is a parameter `color`.
- Mongoose is replaced by a map from id to record.
  - ObjectId generation is the `newId` parameter, with the requirement that it is new.
  - `createdAt`/`updatedAt` are not modelled.
  - The cast errors that an ill-formed id raises in `findByIdAndUpdate`/`findByIdAndDelete` are not modelled.
  - The order `find` returns is not modelled: the listing is a map from id.
- An update with no date keeps the stored date, as Mongoose drops keys whose value is `undefined`. A JSON `null` field is treated as absent.
- ExpenseController.ExpenseStore.CreateExpense / ExpenseController.ExpenseStore.UpdateExpense / ExpenseController.OpenSealed: the cast of `date` to the schema's `Date` type (backend/models/expense.js:8) is not modelled. The date is kept as the text sent. This leaves three gaps:
  - A date Mongoose cannot cast (such as "not a date") makes the source's create or update throw, answer the 500 error and store nothing. The model stores the text and answers the echo.
  - A castable date comes back normalised in the reply and the listing (e.g. "2024-01-15T00:00:00.000Z" for "2024-01-15"). The model returns the text as sent.
  - An update with JSON `date: null` clears the stored date in the source. The model keeps the old date.
- Dashboard.FilteredExpenses / SpendingTrendChart.TrendChart.Render / Dashboard.Editor.EditClick: the client's expense always has a date (`Client.Expense.date` is a string). A record created through the API without a date is therefore outside the model. In the source such a record crashes the page: `new Date(undefined).toISOString()` throws a RangeError in the filter, and `undefined.slice` throws a TypeError in the trend chart and on edit.
- ExpenseController.ExpenseStore.CreateExpense: the reply's `amount` is the amount's text, not `parseFloat` of it, because floating point is left out.
- ExpenseController.ExpenseStore.UpdateExpense: the reply's `amount` is the amount's text, not `parseFloat` of it, for the same reason.
- ExpenseController.BodyValue: a boolean, object or array amount is stored as its `toString()` text; that a later `parseFloat` reads it as NaN is not modelled, because floating point is left out.
- JsString.IntegerToString: an integer amount of magnitude 10^21 or more is written in plain digits, while JavaScript writes it in exponent form (`"1e+21"`).
- ExpenseChart.Render / Grouping.Firsts: the accumulator is a map that starts every key at 0. In the source it is a plain `{}`, so a category named like an inherited `Object.prototype` member behaves differently. For "constructor", "toString", "valueOf" or "hasOwnProperty" the first read is a function, and the value becomes string concatenation, not a sum. For "__proto__" the write is ignored, and the category is missing from the labels. The model sums such categories like any other.
- The token check in front of the routes is not part of this model. `req.userId` is a trusted input, and `backend/controllers/profileController.js` is not part of this model.
- These are not modelled:
  - async ordering, axios, `setTimeout`, the refetch after a successful submit;
  - React rendering;
  - Profile.jsx, Home.jsx, App.jsx, the routers, `server.js` and the schema files beyond the record shape.
- These parts of the Dashboard and Register pages are not modelled: `handleBudgetChange`, `exportCSV`, `handleBlur`/`touched`, and the Register `handleSubmit` beyond the `isNewUser` flag that `Dashboard.NewUserBudgetThenDefault` starts from.
- Lists.Sort: the stability of JavaScript's `sort` is not stated. Only the order and the rearrangement are.
- The dashboard's `handleChange` of the edit form is not modelled beyond the form value it writes.
