/** How the client reads the plaintext body the service answers with. The service
    replies with a bare token (`NO_NUMBERS`) or a colon-joined record
    (`ACCESS_NUMBER:id:phone`); GetNumber and the polling step split the body on
    ':', while Done and Cancel compare the whole body. A failure to send the
    request or read the body is passed through unchanged. */
module Responses {
  import opened Text
  import opened Errors

  const COLON := ':'

  /** What one HTTP round trip yields: the body text, or the error of c.Get or io.ReadAll. */
  datatype Reply = Body(text: string) | IoFailure(cause: string)

  /** What GetNumber yields: (id, phone) with a nil error, an error, or the
      index-out-of-range panic of reading parts[2] when the body has two segments. */
  datatype NumberReply =
    | Number(id: string, phone: string)
    | NumberFailed(error: Error)
    | IndexOutOfRange(index: nat, length: nat)

  /** The error GetNumber reports for a single-token body. */
  function NumberTokenError(token: string): Error
  {
    match token
    case "NO_NUMBERS" => NoNumbers
    case "NO_BALANCE" => NoMoney
    case "MAX_PRICE_EXCEEDED" => MaxPriceExceeded
    case "TOO_MANY_ACTIVE_RENTALS" => TooManyActiveRentals
    case _ => Unknown(token)
  }

  /** GetNumber's reading of a body. */
  function ClassifyNumber(body: string): NumberReply
  {
    var parts := Split(body, COLON);
    if |parts| == 1 then NumberFailed(NumberTokenError(parts[0]))
    else if |parts| < 3 then IndexOutOfRange(2, |parts|)
    else Number(parts[1], parts[2])
  }

  function GetNumber(reply: Reply): NumberReply
  {
    match reply
    case IoFailure(cause) => NumberFailed(Transport(cause))
    case Body(text) => ClassifyNumber(text)
  }

  /** What one status poll decides: poll again, or return this result. */
  datatype Poll = KeepWaiting | Finished(result: Result<string>)

  /** The polling loop's reading of a getStatus body. */
  function PollStatus(body: string): Poll
  {
    var parts := Split(body, COLON);
    if |parts| == 1 then
      match parts[0]
      case "STATUS_WAIT_CODE" => KeepWaiting
      case "NO_ACTIVATION" => Finished(Err(WrongID))
      case "STATUS_CANCEL" => Finished(Err(RentalCanceled))
      case _ => Finished(Err(Unknown(parts[0])))
    else Finished(Ok(parts[1]))
  }

  /** The whole-body check shared by Done and Cancel, with that call's success token. */
  function Acknowledge(body: string, success: string): Outcome
  {
    if body == success then Pass
    else if body == "NO_ACTIVATION" then Fail(WrongID)
    else Fail(Unknown(body))
  }

  function Done(reply: Reply): Outcome
  {
    match reply
    case IoFailure(cause) => Fail(Transport(cause))
    case Body(text) => Acknowledge(text, "ACCESS_ACTIVATION")
  }

  function Cancel(reply: Reply): Outcome
  {
    match reply
    case IoFailure(cause) => Fail(Transport(cause))
    case Body(text) => Acknowledge(text, "ACCESS_CANCEL")
  }

  /** The text Balance hands to the float parser: the body with a leading
      `ACCESS_BALANCE:` removed (parsing the number is not modelled). */
  function BalanceText(reply: Reply): (r: Result<string>)
    ensures reply.IoFailure? ==> r == Err(Transport(reply.cause))
    ensures reply.Body? && "ACCESS_BALANCE:" <= reply.text ==> r.Ok? && "ACCESS_BALANCE:" + r.value == reply.text
    ensures reply.Body? && !("ACCESS_BALANCE:" <= reply.text) ==> r == Ok(reply.text)
  {
    match reply
    case IoFailure(cause) => Err(Transport(cause))
    case Body(text) => Ok(TrimPrefix(text, "ACCESS_BALANCE:"))
  }

  // ---- GetNumber ----

  /** A body takes GetNumber's token branch exactly when it holds no colon. */
  lemma NumberTokenBranchIff(body: string)
    ensures ClassifyNumber(body).NumberFailed? <==> COLON !in body
    ensures COLON !in body ==> ClassifyNumber(body) == NumberFailed(NumberTokenError(body))
  {
    SplitIsSingleIff(body, COLON);
    if COLON !in body {
      SplitWithoutSeparator(body, COLON);
    }
  }

  /** The four tokens GetNumber recognises, each mapped to its own sentinel. */
  lemma NumberTokens(body: string)
    ensures body == "NO_NUMBERS" ==> ClassifyNumber(body) == NumberFailed(NoNumbers)
    ensures body == "NO_BALANCE" ==> ClassifyNumber(body) == NumberFailed(NoMoney)
    ensures body == "MAX_PRICE_EXCEEDED" ==> ClassifyNumber(body) == NumberFailed(MaxPriceExceeded)
    ensures body == "TOO_MANY_ACTIVE_RENTALS" ==> ClassifyNumber(body) == NumberFailed(TooManyActiveRentals)
  {
    if body == "NO_NUMBERS" {
      NumberTokenBranchIff(body);
    } else if body == "NO_BALANCE" {
      NumberTokenBranchIff(body);
    } else if body == "MAX_PRICE_EXCEEDED" {
      NumberTokenBranchIff(body);
    } else if body == "TOO_MANY_ACTIVE_RENTALS" {
      NumberTokenBranchIff(body);
    }
  }

  /** Any other colon-free body, the empty one included, is an unknown error carrying that exact text. */
  lemma NumberUnknownToken(body: string)
    requires COLON !in body
    requires body !in {"NO_NUMBERS", "NO_BALANCE", "MAX_PRICE_EXCEEDED", "TOO_MANY_ACTIVE_RENTALS"}
    ensures ClassifyNumber(body) == NumberFailed(Unknown(body))
  {
    NumberTokenBranchIff(body);
  }

  /** A record of three or more colon-free segments yields segments 1 and 2 with a nil
      error; segment 0 and everything after segment 2 are ignored. */
  lemma NumberRecord(parts: seq<string>)
    requires |parts| >= 3
    requires forall i :: 0 <= i < |parts| ==> COLON !in parts[i]
    ensures ClassifyNumber(Join(parts, COLON)) == Number(parts[1], parts[2])
  {
    SplitOfJoin(parts, COLON);
  }

  /** A body with exactly one colon reads parts[2] out of range. */
  lemma NumberTwoSegments(tag: string, field: string)
    requires COLON !in tag && COLON !in field
    ensures ClassifyNumber(tag + [COLON] + field) == IndexOutOfRange(2, 2)
  {
    SplitAfterPiece(tag, COLON, field);
    SplitWithoutSeparator(field, COLON);
  }

  /** An example getNumber reply: a three-segment record gives (id, phone). */
  lemma NumberExample()
    ensures ClassifyNumber("STATUS_OK:12345:+19998887777") == Number("12345", "+19998887777")
  {
    var parts := ["STATUS_OK", "12345", "+19998887777"];
    assert Join(parts, COLON) == "STATUS_OK:12345:+19998887777";
    NumberRecord(parts);
  }

  // ---- the status poll ----

  /** A body takes the poll's record branch (a code with a nil error) exactly when it holds a colon. */
  lemma PollRecordBranchIff(body: string)
    ensures PollStatus(body).Finished? && PollStatus(body).result.Ok? <==> COLON in body
  {
    SplitIsSingleIff(body, COLON);
  }

  /** Only the token STATUS_WAIT_CODE keeps the loop polling. */
  lemma PollKeepsWaitingIff(body: string)
    ensures PollStatus(body) == KeepWaiting <==> body == "STATUS_WAIT_CODE"
  {
    SplitIsSingleIff(body, COLON);
    if COLON !in body {
      SplitWithoutSeparator(body, COLON);
    } else {
      assert COLON !in "STATUS_WAIT_CODE";
    }
  }

  /** The terminal tokens of the poll: wrong id, rental canceled, and any other token as unknown. */
  lemma PollTerminalTokens(body: string)
    requires COLON !in body
    ensures body == "NO_ACTIVATION" ==> PollStatus(body) == Finished(Err(WrongID))
    ensures body == "STATUS_CANCEL" ==> PollStatus(body) == Finished(Err(RentalCanceled))
    ensures body !in {"STATUS_WAIT_CODE", "NO_ACTIVATION", "STATUS_CANCEL"} ==>
      PollStatus(body) == Finished(Err(Unknown(body)))
  {
    SplitWithoutSeparator(body, COLON);
  }

  /** A record of two or more colon-free segments yields segment 1 as the code, whatever segment 0 is. */
  lemma PollRecord(parts: seq<string>)
    requires |parts| >= 2
    requires forall i :: 0 <= i < |parts| ==> COLON !in parts[i]
    ensures PollStatus(Join(parts, COLON)) == Finished(Ok(parts[1]))
  {
    SplitOfJoin(parts, COLON);
  }

  // ---- Done and Cancel ----

  /** Done and Cancel read the whole body: their success token gives nil, NO_ACTIVATION
      the wrong-id error, and anything else an unknown error carrying the full body. */
  lemma AcknowledgeCases(body: string)
    ensures Done(Body(body)) == Pass <==> body == "ACCESS_ACTIVATION"
    ensures Cancel(Body(body)) == Pass <==> body == "ACCESS_CANCEL"
    ensures Done(Body(body)) == Fail(WrongID) <==> body == "NO_ACTIVATION"
    ensures Cancel(Body(body)) == Fail(WrongID) <==> body == "NO_ACTIVATION"
    ensures body !in {"ACCESS_ACTIVATION", "NO_ACTIVATION"} ==> Done(Body(body)) == Fail(Unknown(body))
    ensures body !in {"ACCESS_CANCEL", "NO_ACTIVATION"} ==> Cancel(Body(body)) == Fail(Unknown(body))
  {
  }

  /** Unlike GetNumber and the poll, a record whose tag is the success token is not a success. */
  lemma AcknowledgeRejectsRecords(field: string)
    ensures Done(Body("ACCESS_ACTIVATION:" + field)) == Fail(Unknown("ACCESS_ACTIVATION:" + field))
    ensures Cancel(Body("ACCESS_CANCEL:" + field)) == Fail(Unknown("ACCESS_CANCEL:" + field))
  {
    assert |"ACCESS_ACTIVATION:" + field| > |"ACCESS_ACTIVATION"|;
    assert |"ACCESS_CANCEL:" + field| > |"ACCESS_CANCEL"|;
  }

  // ---- failures of the round trip ----

  /** A failure to send the request or read the body comes back unchanged from every call. */
  lemma IoFailuresPassThrough(cause: string)
    ensures GetNumber(IoFailure(cause)) == NumberFailed(Transport(cause))
    ensures Done(IoFailure(cause)) == Fail(Transport(cause))
    ensures Cancel(IoFailure(cause)) == Fail(Transport(cause))
    ensures BalanceText(IoFailure(cause)) == Err(Transport(cause))
  {
  }

  /** A balance body with the ACCESS_BALANCE: prefix hands exactly its number text to the parser. */
  lemma BalanceOfPrefixed(amount: string)
    ensures BalanceText(Body("ACCESS_BALANCE:" + amount)) == Ok(amount)
  {
    TrimPrefixOfPrefixed("ACCESS_BALANCE:", amount);
  }
}
