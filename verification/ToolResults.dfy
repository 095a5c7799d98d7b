/** Which tool results mean a missing precondition: `precondition_failure_reason` of iteration_budget.py. */
module ToolResults {
  import opened TextTools

  /** The result of a tool: not an object, or its `success`, `error` and (0 unless an integer) `status_code`. */
  datatype ToolResult = NotAnObject | Result(success: bool, error: string, status: int)

  const PRECONDITION_STATUS_CODES := {401, 403, 412, 424, 503}

  const PRECONDITION_ERROR_PHRASES := [
    "not connected", "not configured", "not installed", "not authorised", "not authorized", "no live websocket",
    "undeliverable frame", "sandbox required", "sandbox unavailable", "no usb robot", "requires authentication"
  ]

  function StatusText(status: int): string
    requires status in PRECONDITION_STATUS_CODES
  {
    if status == 401 then "401" else if status == 403 then "403" else if status == 412 then "412"
    else if status == 424 then "424" else "503"
  }

  /** Why no argument will fix this result, or the empty string. */
  function PreconditionFailureReason(result: ToolResult): string {
    if result.NotAnObject? || result.success then ""
    else
      var error := Strip(result.error);
      if result.status in PRECONDITION_STATUS_CODES then
        if error != "" then error else "the tool answered HTTP " + StatusText(result.status)
      else if exists k :: 0 <= k < |PRECONDITION_ERROR_PHRASES| && Contains(Lower(error), PRECONDITION_ERROR_PHRASES[k])
      then error
      else ""
  }

  /** A reason is given exactly for an unsuccessful result with a precondition code or a precondition phrase. */
  lemma {:induction false} ReasonIffPrecondition(result: ToolResult)
    ensures PreconditionFailureReason(result) != "" <==>
            && result.Result? && !result.success
            && (result.status in PRECONDITION_STATUS_CODES ||
                exists k :: 0 <= k < |PRECONDITION_ERROR_PHRASES| &&
                            Contains(Lower(Strip(result.error)), PRECONDITION_ERROR_PHRASES[k]))
  {
    if result.Result? && Strip(result.error) == "" {
      assert forall k :: 0 <= k < |PRECONDITION_ERROR_PHRASES| ==> |PRECONDITION_ERROR_PHRASES[k]| > 0;
    }
  }

  /** A capital letter stands for its small one. */
  ghost predicate SameLetter(c: char, small: char) {
    c == small || exists k :: 0 <= k < 26 && c == CAPITALS[k] && small == SMALL_LETTERS[k]
  }

  /** The phrase occurs in the text, in small or capital letters. */
  ghost predicate Mentions(text: string, phrase: string) {
    exists i: nat :: MentionsAt(text, phrase, i)
  }

  ghost predicate MentionsAt(text: string, phrase: string, i: nat) {
    i + |phrase| <= |text| && forall k :: 0 <= k < |phrase| ==> SameLetter(text[i + k], phrase[k])
  }

  predicate IsSmall(phrase: string) {
    forall k :: 0 <= k < |phrase| ==> !('A' <= phrase[k] <= 'Z')
  }

  lemma {:induction false} LowerIsSmall(c: char, small: char)
    requires !('A' <= small <= 'Z')
    ensures LowerChar(c) == small <==> SameLetter(c, small)
  {
    Letters();
    LowerMeaning(c);
    if 'A' <= c <= 'Z' {
      assert CAPITALS[c as int - 65] == c;
    }
  }

  lemma {:induction false} ContainsLowered(text: string, phrase: string)
    requires IsSmall(phrase)
    ensures Contains(Lower(text), phrase) <==> Mentions(text, phrase)
  {
    hide SameLetter, Lower, LowerChar;
    forall i: nat ensures OccursAt(Lower(text), phrase, i) <==> MentionsAt(text, phrase, i) {
      if i + |phrase| <= |text| {
        forall k | 0 <= k < |phrase| ensures Lower(text)[i + k] == phrase[k] <==> SameLetter(text[i + k], phrase[k]) {
          LowerAt(text, i + k);
          LowerIsSmall(text[i + k], phrase[k]);
        }
      }
    }
    assert forall i: nat :: MentionsAt(text, phrase, i) ==> i <= |text|;
  }

  /** One of the phrases that name a missing precondition occurs in the error. */
  ghost predicate NamesPrecondition(error: string) {
    var phrases := ["not connected", "not configured", "not installed", "not authorised", "not authorized",
                    "no live websocket", "undeliverable frame", "sandbox required", "sandbox unavailable",
                    "no usb robot", "requires authentication"];
    exists k :: 0 <= k < |phrases| && Mentions(error, phrases[k])
  }

  lemma {:induction false} NoCapitalAt(k: nat, i: nat)
    requires k < |PRECONDITION_ERROR_PHRASES| && i < |PRECONDITION_ERROR_PHRASES[k]|
    ensures !('A' <= PRECONDITION_ERROR_PHRASES[k][i] <= 'Z')
  {
  }

  lemma {:induction false} PhraseIsSmall(k: nat)
    requires k < |PRECONDITION_ERROR_PHRASES|
    ensures IsSmall(PRECONDITION_ERROR_PHRASES[k])
  {
    var phrase := PRECONDITION_ERROR_PHRASES[k];
    forall i | 0 <= i < |phrase| ensures !('A' <= phrase[i] <= 'Z') {
      NoCapitalAt(k, i);
    }
  }

  lemma {:induction false} PhraseMeaning(error: string)
    ensures NamesPrecondition(error) <==>
            exists k :: 0 <= k < |PRECONDITION_ERROR_PHRASES| && Contains(Lower(error), PRECONDITION_ERROR_PHRASES[k])
  {
    hide Contains, Lower, Mentions, IsSmall;
    forall k | 0 <= k < |PRECONDITION_ERROR_PHRASES|
      ensures Contains(Lower(error), PRECONDITION_ERROR_PHRASES[k]) <==> Mentions(error, PRECONDITION_ERROR_PHRASES[k])
    {
      PhraseIsSmall(k);
      ContainsLowered(error, PRECONDITION_ERROR_PHRASES[k]);
    }
  }

  /** A number of three digits, as it is written. */
  predicate Writes(digits: string, n: int) {
    && |digits| == 3 && (forall k :: 0 <= k < 3 ==> '0' <= digits[k] <= '9')
    && n == (digits[0] as int - 48) * 100 + (digits[1] as int - 48) * 10 + (digits[2] as int - 48)
  }

  /**
   * The reason of an unsuccessful result with one of five status codes is its error without blanks at the ends, or
   * names the code if there is none; with another status it is that error if it names a missing precondition.
   */
  lemma {:induction false} ReasonMeaning(result: ToolResult) returns (digits: string)
    ensures result.NotAnObject? || result.success ==> PreconditionFailureReason(result) == ""
    ensures result.Result? && !result.success ==>
              var error := Strip(result.error);
              PreconditionFailureReason(result) ==
              if result.status !in {401, 403, 412, 424, 503} then if NamesPrecondition(error) then error else ""
              else if error != "" then error
              else "the tool answered HTTP " + digits
    ensures result.Result? && result.status in {401, 403, 412, 424, 503} ==> Writes(digits, result.status)
  {
    digits := "";
    if result.Result? {
      PhraseMeaning(Strip(result.error));
      hide NamesPrecondition, Strip, Contains, Lower;
      if result.status in PRECONDITION_STATUS_CODES {
        digits := StatusText(result.status);
        StatusDigits(result.status);
      }
      hide StatusText, Writes;
    }
  }

  lemma {:induction false} StatusDigits(status: int)
    requires status in PRECONDITION_STATUS_CODES
    ensures Writes(StatusText(status), status)
  {
  }
}
