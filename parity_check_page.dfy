/** The state of the parity-check page and the handlers that update it. The
    page keeps three state slots, all strings: the data typed by the user, the
    parity bit last computed (empty when none is shown) and the message shown
    in the alerts (empty when none is shown).
 */
module ParityCheckPage {
  import opened ParityEngine

  /** Shown when the data holds a character other than '0' or '1'. */
  const InvalidInputMessage: string := "Please enter a valid binary string (only 0s and 1s)."

  /** Shown when the data plus parity string holds an odd number of ones. */
  const TransmissionErrorMessage: string := "Error detected in data transmission!"

  /** The data the page shows before the user types anything. */
  const InitialInput: string := "1101"

  class ParityCheck {
    var input: string
    var parityBit: string
    var error: string

    /** The states the page itself can reach through typing and the
        Calculate Parity button: a parity bit is shown only for binary data,
        is that data's even-parity bit, and comes with no message; the only
        message ever shown is the validation one, and only for non-binary data. */
    ghost predicate Consistent()
      reads this
    {
      && (parityBit != "" ==> IsBinary(input) && parityBit == [ParityOf(input)] && error == "")
      && (error != "" ==> error == InvalidInputMessage && !IsBinary(input))
    }

    /** The "Data with parity" block is shown. */
    predicate ParityBlockVisible()
      reads this
    {
      parityBit != ""
    }

    /** An alert (validation error, or error detection inside the parity block) is shown. */
    predicate AlertVisible()
      reads this
    {
      error != ""
    }

    /** The text of the "Data with parity" block: in any reachable state it
        has even parity, so re-checking it never reports a transmission error. */
    function DataWithParity(): (shown: string)
      reads this
      requires Consistent() && ParityBlockVisible()
      ensures shown == input + [ParityOf(input)]
      ensures |shown| == |input| + 1 && IsBinary(shown)
      ensures CountOnes(shown) % 2 == 0
      ensures !HasError(input, parityBit) && !AlertVisible()
    {
      EvenParityAfterAppend(input);
      TransmittedIsBinary(input);
      input + parityBit
    }

    constructor ()
      ensures input == InitialInput && parityBit == "" && error == ""
      ensures Consistent()
    {
      input := InitialInput;
      parityBit := "";
      error := "";
    }

    /** Accepts `data` exactly when it is a binary string (the empty string
        included); sets the validation message on rejection and clears the
        message on acceptance. */
    method CheckValidInput(data: string) returns (ok: bool)
      modifies this`error
      ensures ok <==> IsBinary(data)
      ensures error == if ok then "" else InvalidInputMessage
    {
      var isValid := IsBinary(data);
      if !isValid {
        error := InvalidInputMessage;
        return false;
      }
      error := "";
      return true;
    }

    /** Validates `data`; on rejection leaves the parity bit as it was, on
        acceptance sets it to the single even-parity bit of `data`. */
    method CalculateParity(data: string)
      modifies this`parityBit, this`error
      ensures IsBinary(data) ==> parityBit == [ParityOf(data)] && error == ""
      ensures !IsBinary(data) ==> parityBit == old(parityBit) && error == InvalidInputMessage
      ensures IsBinary(data) ==> |parityBit| == 1 && IsBit(parityBit[0])
      ensures IsBinary(data) ==> CountOnes(data + parityBit) % 2 == 0
    {
      var ok := CheckValidInput(data);
      if !ok {
        return;
      }
      var parity := ParityOf(data);
      parityBit := [parity];
      EvenParityAfterAppend(data);
    }

    /** Sets the transmission-error message exactly when `data + parity` holds
        an odd number of ones and clears the message otherwise. The page
        defines this check but no handler calls it. */
    method CheckForErrors(data: string, parity: string)
      modifies this`error
      ensures error == (if HasError(data, parity) then TransmissionErrorMessage else "")
      ensures parity == [ParityOf(data)] ==> error == ""
    {
      if HasError(data, parity) {
        error := TransmissionErrorMessage;
      } else {
        error := "";
      }
      if parity == [ParityOf(data)] {
        NoFalsePositive(data);
      }
    }

    /** The input field's change handler: takes the new text and clears the
        parity bit and the message. */
    method OnChange(value: string)
      modifies this
      ensures input == value && parityBit == "" && error == ""
      ensures Consistent()
    {
      input := value;
      parityBit := "";
      error := "";
    }

    /** The Calculate Parity button: computes the parity of the current input. */
    method OnCalculateClick()
      requires Consistent()
      modifies this`parityBit, this`error
      ensures Consistent()
      ensures IsBinary(input) ==> parityBit == [ParityOf(input)] && error == ""
      ensures !IsBinary(input) ==> parityBit == "" && error == InvalidInputMessage
    {
      CalculateParity(input);
    }
  }

  /** The page in use: typing and clicking as a user would, with what the
      specifications above let a caller conclude. */
  method UsageScenarios()
  {
    var page := new ParityCheck();
    page.OnCalculateClick();
    assert CountOnes("1101") == 3;
    assert page.parityBit == "1" && page.error == "";

    page.OnChange("1100");
    page.OnCalculateClick();
    assert CountOnes("1100") == 2;
    assert page.parityBit == "0";

    page.OnChange("11a1");
    assert !IsBit("11a1"[2]);
    page.OnCalculateClick();
    assert page.parityBit == "" && page.error == InvalidInputMessage;

    page.OnChange("");
    page.OnCalculateClick();
    assert page.parityBit == "0" && page.error == "";

    page.CheckForErrors("1101", "1");
    assert page.error == "";
    page.CheckForErrors("1001", "1");
    assert "1001" + "1" == "10011";
    assert CountOnes("10011") == 3;
    assert page.error == TransmissionErrorMessage;
  }
}
