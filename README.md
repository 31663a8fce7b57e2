# Phone-number utility of the friendipity app, in Dafny

The app stores a phone number on each user profile. Its utility module
`src/utils/phoneNumber.ts` has three pure string functions, modelled here in
one Dafny module, `PhoneNumber` (`phone_number.dfy`):

- `normalizePhoneNumber` (`PhoneNumber.Normalize`) strips every character
  outside `'0'..'9'` and puts the number into the E.164 shape of ITU-T
  Recommendation E.164, a `+` followed by digits. The US country code `1` is
  assumed: exactly ten digits become `+1` and the digits. Any other digit
  count becomes `+` and the digits. The source reaches that result along three
  separate branches: eleven digits starting with `1`, more than eleven digits,
  and everything else. The model keeps all three.
- `formatPhoneNumber` (`PhoneNumber.Format`) normalises the number and strips
  the `+` again. Eleven digits starting with `1` are displayed as
  `(AAA) PPP-LLLL`. Any other input is returned exactly as it was passed in,
  not normalised.
- `isValidPhoneNumber` (`PhoneNumber.IsValid`) holds when the normalised
  number has between 10 and 15 digits.

The regular expression `/\D/g` matches every character that is not an ASCII
digit: in JavaScript, `\D` is `[^0-9]` whatever the flags. The model writes it as the recursive
filter `PhoneNumber.Digits` on `seq<char>`. A "US number" (`IsUSNumber`)
has ten digits, or eleven digits starting with `1`. Its ten national digits
are `NationalNumber`. `DisplayShape` is the predicate for the
`(AAA) PPP-LLLL` layout.

The source's comments (`phoneNumber.ts:11`, `:16`, `:21`) name the
ten-digit case, the eleven-digit case starting with `1` and the longer case.
The final fallback (`phoneNumber.ts:25-26`) also covers fewer than ten
digits and eleven digits not starting with `1`: both become `+` followed by
the digits. The model keeps that fallback.

## Model

| member | source | states |
|---|---|---|
| `PhoneNumber.Digits` | src/utils/phoneNumber.ts:7 | the result is all ASCII digits and no longer than the input; it is as long as the input exactly when the input is all digits, and then it is the input itself |
| `PhoneNumber.DigitsConcat` | src/utils/phoneNumber.ts:7 | stripping non-digits distributes over concatenation: `Digits(a + b) == Digits(a) + Digits(b)` |
| `PhoneNumber.DigitsOfNonDigits` | src/utils/phoneNumber.ts:7 | a string with no digit strips to the empty string |
| `PhoneNumber.DigitsIgnoresNonDigit` | src/utils/phoneNumber.ts:7 | inserting a non-digit anywhere leaves the digit subsequence unchanged |
| `PhoneNumber.Normalize` | src/utils/phoneNumber.ts:5-27 | the result is `+` followed only by digits; its digits are exactly what follows the `+`; its length is the input's digit count plus 2 for ten digits, plus 1 otherwise |
| `PhoneNumber.NormalizedDigits` | src/utils/phoneNumber.ts:10-26 | after the `+` come the input's digits, preceded by the country code `1` exactly when there are ten of them |
| `PhoneNumber.NormalizeTenDigits` | src/utils/phoneNumber.ts:10-13 | ten digits `d` give `"+1" + d`: 12 characters, 11 digits |
| `PhoneNumber.NormalizeOtherCounts` | src/utils/phoneNumber.ts:15-26 | every other digit count (fewer than ten, eleven with or without a leading `1`, more than eleven) gives `"+" + d` |
| `PhoneNumber.NormalizeIgnoresNonDigits` | src/utils/phoneNumber.ts:7 | normalising the input and normalising its digit subsequence agree |
| `PhoneNumber.NormalizeIgnoresNoise` | src/utils/phoneNumber.ts:7 | inserting a non-digit anywhere in the input does not change the normalised number |
| `PhoneNumber.NormalizeIdempotent` | src/utils/phoneNumber.ts:5-27 | normalising twice gives the same as normalising once |
| `PhoneNumber.NormalizeSameNumber` | src/utils/phoneNumber.ts:5-27 | two inputs normalise alike if and only if they have the same digits, or one has ten digits and the other has those ten after a leading `1` |
| `PhoneNumber.NationalNumber` | src/utils/phoneNumber.ts:38-41 | for a US number: exactly ten digits, which are the number's whole digit string or follow its leading `1` |
| `PhoneNumber.DigitsOfGrouped` | src/utils/phoneNumber.ts:42 | the digits of `(A) P-L` are those of A, P and L in order |
| `PhoneNumber.GroupedShape` | src/utils/phoneNumber.ts:42 | groups of 3, 3 and 4 digits put together as `(A) P-L` have the display shape, with A, P and L at positions 1-3, 6-8 and 10-13 |
| `PhoneNumber.GroupedNational` | src/utils/phoneNumber.ts:38-42 | splitting eleven digits at 1, 4, 7 and 11 gives the display shape, and its digits are the ten after the first |
| `PhoneNumber.DisplayGroups` | src/utils/phoneNumber.ts:39-42 | the area code, prefix and line number of a displayed number together are ten digits |
| `PhoneNumber.DisplayShapeDigits` | src/utils/phoneNumber.ts:42 | a display-shaped string is its three groups put back together, and its digits are those groups |
| `PhoneNumber.IsUSNumber` | src/utils/phoneNumber.ts:34-38 | the formatter's test (eleven normalised digits, the first of them `1`) holds exactly when the input has ten digits, or eleven digits starting with `1` |
| `PhoneNumber.Grouped` | src/utils/phoneNumber.ts:42 | the template `(A) P-L` is as long as A, P and L together plus 4, fixed punctuation at its offsets, and A, P and L can be read back from their positions |
| `PhoneNumber.FormatCondition` | src/utils/phoneNumber.ts:34-41 | for a US number, the normalised digits are `1` followed by the ten national digits that the slices take |
| `PhoneNumber.Format` | src/utils/phoneNumber.ts:33-46 | a US number yields a string of display shape whose digits are its ten national digits; any other input is returned unchanged |
| `PhoneNumber.FormatUS` | src/utils/phoneNumber.ts:38-42 | a US number with national digits `n` formats as `"(" + n[0..3] + ") " + n[3..6] + "-" + n[6..10]`, 14 characters |
| `PhoneNumber.FormatDisplayShape` | src/utils/phoneNumber.ts:33-45 | a string that already has the display shape is a US number and formats to itself |
| `PhoneNumber.FormatIdempotent` | src/utils/phoneNumber.ts:33-46 | formatting twice gives the same as formatting once |
| `PhoneNumber.FormatKeepsNumber` | src/utils/phoneNumber.ts:33-46 | the formatted string normalises to the same E.164 number as the input |
| `PhoneNumber.IsValid` | src/utils/phoneNumber.ts:51-57 | valid if and only if the input has between 10 and 15 digits; a 10-digit input counts as 11 after the `1` is added, which is still in range |
| `PhoneNumber.IsValidNormalize` | src/utils/phoneNumber.ts:51-57 | validity does not change under normalisation, and every US number is valid |

## Left out

- Authentication and sessions: the provider of the authentication context that `App.tsx`, `app/_layout.tsx` and `src/navigation/AppNavigator.tsx` use is not part of this model. The provider's source is not available, and it works through asynchronous network calls, deep-link callbacks and event subscriptions.
- `app/(auth)/login.tsx`: besides its screen, it checks an email address against a regular expression (`isValidEmail`, login.tsx:17-20), trims and lower-cases the address (login.tsx:29), rejects an empty one (login.tsx:31-34), and recognises rate-limit errors by matching the error message (login.tsx:55). These lie outside the phone-number utility and are not modelled.
- `App.tsx`: besides branching on the loading flag, `testConnection` (App.tsx:9-21) queries the `users` table through the backend client and shows a success or an error alert depending on the result, and App.tsx:35 shows either the signed-in user's profile or "Not logged in", depending on whether there is a user. These are user-interface code and backend calls outside the phone-number utility, and are not modelled.
- `app/_layout.tsx`, `src/navigation/AppNavigator.tsx`, `src/types/index.ts`: screens, layout and navigation only. These files have no logic beyond branching on a loading flag.
- `src/services/supabase.ts`: it reads environment variables and constructs a third-party backend client whose code is not available.
- `src/types/database.types.ts`: type declarations of backend tables, with no behaviour.
- Regular expressions in general: the one pattern used, `/\D/g`, is modelled directly as the digit filter `Digits`.
- JavaScript strings are sequences of UTF-16 code units, and Dafny's `char` is a Unicode scalar value. A string holding an unpaired surrogate has no Dafny `string` counterpart, so such inputs are outside the model. For every other string, the digit filter and the unchanged return of the formatter agree with the source.
- E.164's limit of 15 digits: the source's `normalizePhoneNumber` does not enforce it, and neither does the model. Only `IsValid` checks the range.
