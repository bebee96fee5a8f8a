# Parity check: verified model of the even-parity engine

The parity-check page of the data-link showcase demonstrates even parity on a
short binary string. The user types data, presses "Calculate Parity", and the
page shows the data followed by the bit that makes its number of ones even.
This project models the page's engine and its three pieces of state:

- `parity_engine.dfy`, module `ParityEngine`: the pure part. It holds the
  binary-string test (`IsBinary`, the regular expression `^[01]*$` stated per
  character), the ones count (`CountOnes`), the even-parity bit (`ParityOf`),
  the odd-count error verdict (`HasError`), a single bit flip (`Flip`) and the
  Hamming distance (`Distance`). Its lemmas prove what the page promises,
  and the known blind spot of one parity bit:
  - the data plus its parity bit has even parity;
  - unmodified data is never flagged;
  - every single flipped bit is flagged;
  - every pair of flipped bits is missed.
  A general theorem covers both flip cases: for binary data, the check flags
  a received string exactly when it differs from what was sent in an odd
  number of positions.
- `parity_check_page.dfy`, module `ParityCheckPage`: the page's state as
  class `ParityCheck`. Its fields are `input`, `parityBit` and `error`, all
  strings. The class has the page's helpers `CheckValidInput`,
  `CalculateParity` and `CheckForErrors`, the input's change handler
  `OnChange`, and the button handler `OnCalculateClick`. The invariant
  `Consistent` describes every state that typing and clicking can reach:
  - a parity bit is shown only for binary data, it is that data's even-parity
    bit, and no message is shown with it;
  - the only message that can appear is the validation message, and only for
    non-binary data.
  So the "Data with parity" text always has even parity, and the "Error
  Detection" alert inside that block never appears (`DataWithParity`).

The Calculate Parity button runs validation and parity generation only;
nothing calls `checkForErrors`. `CheckForErrors` is therefore a standalone
method of the model, and no handler of the model calls it either.

The parity argument of `checkForErrors` is a string, not a single character,
so `HasError` and `CheckForErrors` take any string there. The input field's
`maxLength={8}` and `pattern` attributes are enforced by the browser, not by
the code, so no length bound or binary-only assumption is made.

## Model

| member | source | states |
|---|---|---|
| ParityEngine.IsBinary | src/pages/algorithms/ParityCheck.tsx:17 | The test `^[01]*$` stated per character: every character is '0' or '1', so the empty string passes. It is characterised against the character counts by IsBinaryByCounts. |
| ParityEngine.CountOnes | src/pages/algorithms/ParityCheck.tsx:28 | The ones count of `split('').filter(bit => bit === '1').length`, also used at line 35. It is characterised by CountOnesIsMultiplicity, CountOnesBounds and CountOnesAppend. |
| ParityEngine.CountOnesIsMultiplicity | src/pages/algorithms/ParityCheck.tsx:28 | The ones count equals the multiplicity of '1' in the string's multiset, an independent definition of "filter the characters equal to '1' and take the length". |
| ParityEngine.CountOnesBounds | src/pages/algorithms/ParityCheck.tsx:28 | The ones count is at most the length. For a binary string, the ones plus the '0' characters make up the whole length. |
| ParityEngine.IsBinaryByCounts | src/pages/algorithms/ParityCheck.tsx:17 | The per-character form of `^[01]*$` holds exactly when the '0' and '1' characters make up the whole string, so the empty string passes. |
| ParityEngine.CountOnesAppend | src/pages/algorithms/ParityCheck.tsx:34-35 | Counting the ones of `data + parity` is the sum of the two counts. |
| ParityEngine.CountOnesFlip | src/pages/algorithms/ParityCheck.tsx:35 | Inverting one position changes the ones count by exactly one: down if it was '1', up otherwise. |
| ParityEngine.FlipChangesParity | src/pages/algorithms/ParityCheck.tsx:35-36 | Inverting one position flips whether the ones count is odd. |
| ParityEngine.ParityOf | src/pages/algorithms/ParityCheck.tsx:28-29 | The chosen bit is '0' or '1', and the data's ones plus the bit's ones are even. |
| ParityEngine.EvenParityAfterAppend | src/pages/algorithms/ParityCheck.tsx:28-30 | The data followed by its parity bit holds an even number of ones. |
| ParityEngine.ParityBitUnique | src/pages/algorithms/ParityCheck.tsx:29 | Of the two bits '0' and '1', the generated one is the only one whose appending gives even parity (both directions). |
| ParityEngine.TransmittedIsBinary | src/pages/algorithms/ParityCheck.tsx:28-30 | Binary data followed by its parity bit is still a binary string. |
| ParityEngine.HasError | src/pages/algorithms/ParityCheck.tsx:34-36 | The check flags `data + parity` exactly when the ones of the data and of the parity string add up to an odd number. |
| ParityEngine.HasErrorOfSplit | src/pages/algorithms/ParityCheck.tsx:34 | The verdict depends only on the concatenation: every split of one transmitted string into data and parity gives the same verdict, which is that string's odd parity. |
| ParityEngine.NoFalsePositive | src/pages/algorithms/ParityCheck.tsx:33-40 | Data checked against its own generated parity bit is never flagged. |
| ParityEngine.Flip | src/pages/algorithms/ParityCheck.tsx:53-54 | A single-bit error changes the one addressed position and no other, and keeps a binary string binary. |
| ParityEngine.SingleFlipDetected | src/pages/algorithms/ParityCheck.tsx:35-37 | Inverting any one position of data plus parity bit, in the data or in the parity bit itself, is flagged. |
| ParityEngine.DoubleFlipMissed | src/pages/algorithms/ParityCheck.tsx:35-39 | Inverting any two distinct positions of data plus parity bit is not flagged, which is the known limit of one parity bit. |
| ParityEngine.DistanceToSelf | src/pages/algorithms/ParityCheck.tsx:53-54 | Unmodified data is at Hamming distance zero from itself. |
| ParityEngine.DistanceOfFlip | src/pages/algorithms/ParityCheck.tsx:53-54 | A single-bit error is at Hamming distance exactly one from the original. |
| ParityEngine.CountOnesParityByDistance | src/pages/algorithms/ParityCheck.tsx:35-36 | Two binary strings of equal length have ones counts of equal parity exactly when their Hamming distance is even. |
| ParityEngine.OddParityIffOddDistance | src/pages/algorithms/ParityCheck.tsx:35-36 | Against an even-parity string, a received binary string has odd parity exactly when it differs in an odd number of positions. |
| ParityEngine.DetectsExactlyOddFlips | src/pages/algorithms/ParityCheck.tsx:33-40 | For binary data and any binary string received in place of data plus parity bit, the check flags it exactly when an odd number of bits differ (both directions). |
| ParityCheckPage.ParityCheck.constructor | src/pages/algorithms/ParityCheck.tsx:12-14 | The page starts with input "1101", no parity bit and no message, a consistent state. |
| ParityCheckPage.ParityCheck.CheckValidInput | src/pages/algorithms/ParityCheck.tsx:16-24 | Returns true exactly for binary strings (the empty one included). On rejection it sets the validation message, on acceptance it clears the message, and it changes nothing else. |
| ParityCheckPage.ParityCheck.CalculateParity | src/pages/algorithms/ParityCheck.tsx:26-31 | On non-binary data it sets the validation message and leaves the parity bit as it was. On binary data it clears the message and sets the parity bit to the single bit giving data plus bit even parity. The input is untouched. |
| ParityCheckPage.ParityCheck.CheckForErrors | src/pages/algorithms/ParityCheck.tsx:33-41 | Sets the transmission-error message exactly when data plus parity has an odd ones count and clears it otherwise. With the generated parity bit it always clears it. |
| ParityCheckPage.ParityCheck.OnChange | src/pages/algorithms/ParityCheck.tsx:68-72 | The new text becomes the input, the parity bit and message are reset to empty, and the state is consistent. |
| ParityCheckPage.ParityCheck.OnCalculateClick | src/pages/algorithms/ParityCheck.tsx:86-90 | Keeps the page consistent. Binary input gets its parity bit and no message. Non-binary input gets the validation message and no parity bit, even after an earlier successful calculation. |
| ParityCheckPage.ParityCheck.ParityBlockVisible | src/pages/algorithms/ParityCheck.tsx:96 | The "Data with parity" block is shown exactly when the parity bit is non-empty. |
| ParityCheckPage.ParityCheck.AlertVisible | src/pages/algorithms/ParityCheck.tsx:78 | An alert with the message is shown exactly when the message is non-empty (the same test guards the alert at line 99). |
| ParityCheckPage.ParityCheck.DataWithParity | src/pages/algorithms/ParityCheck.tsx:96-105 | In any reachable state, the "Data with parity" text is the input followed by its even-parity bit; it is binary, one longer than the input and of even parity. It is never flagged by the check, and no error alert is shown with it. |

## Left out

- Rendering: layout, icons, links, cards, alerts, buttons and styling. Two
  display conditions are kept, as `ParityBlockVisible` and `AlertVisible`.
- React's state hooks and re-render scheduling. The three state slots are
  plain mutable fields, and each setter call is an assignment that takes
  effect at once. Every handler sets each slot at most once or reads only
  its arguments, so batching does not change the outcome.
- The browser-enforced input attributes `maxLength={8}` and `pattern`. The
  model assumes neither a length bound nor binary input.
- The regular-expression engine. `^[01]*$` is stated as a per-character
  predicate. JavaScript strings are sequences of UTF-16 code units and are
  modelled as sequences of characters.
- The event object and `preventDefault` on the button.
