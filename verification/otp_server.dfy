/** The OTP endpoint of server.py: a POST whose JSON body carries the text
    of an SMS and a shared key; the first run of six digits in the text is
    the OTP handed to the waiting token refresh. */
module OtpServer {
  import opened Outcomes
  import opened Text

  /** Length of an OTP, the `{6}` of the search pattern. */
  const OtpLength: nat := 6

  /** The JSON values a field of the request body may hold, as far as the
      handler tells them apart. */
  datatype JsonValue = JString(text: string) | JNull | JOther

  /** A request body: `None` when it is not JSON; otherwise the two fields
      the handler reads, `None` when absent. */
  datatype OtpRequest = OtpRequest(json: Option<Fields>)
  datatype Fields = Fields(msgBody: Option<JsonValue>, authKey: Option<JsonValue>)

  /** The status returned, and the OTP put on the queue, if any. */
  datatype Response = Response(status: int, enqueued: Option<string>)

  /** Six digits start at position `i` of `s`. */
  predicate OtpAt(s: string, i: nat) {
    i + OtpLength <= |s| && forall j :: i <= j < i + OtpLength ==> IsDigit(s[j])
  }

  /** The leftmost match of the pattern `\d{6}` at or after `from`: the
      first position where six digits start. */
  function FindOtpFrom(s: string, from: nat): (r: Option<nat>)
    requires from <= |s|
    ensures r.Some? ==> from <= r.value && OtpAt(s, r.value)
    ensures r.Some? ==> forall j :: from <= j < r.value ==> !OtpAt(s, j)
    ensures r.None? ==> forall j :: from <= j ==> !OtpAt(s, j)
    decreases |s| - from
  {
    if from + OtpLength > |s| then None
    else if OtpAt(s, from) then Some(from)
    else FindOtpFrom(s, from + 1)
  }

  /** `pattern.search(msg)`: where the leftmost OTP starts, if anywhere. */
  function FindOtp(s: string): (r: Option<nat>)
    ensures r.Some? ==> OtpAt(s, r.value) && forall j :: 0 <= j < r.value ==> !OtpAt(s, j)
    ensures r.None? ==> forall j :: 0 <= j ==> !OtpAt(s, j)
  {
    FindOtpFrom(s, 0)
  }

  /** At most one position can be the leftmost OTP. */
  lemma LeftmostIsUnique(s: string, k: nat)
    requires OtpAt(s, k) && forall j :: 0 <= j < k ==> !OtpAt(s, j)
    ensures FindOtp(s) == Some(k)
  {
  }

  /** A single left-to-right scan counting the digits seen in a row; it
      stops as soon as six have been seen. */
  method ScanOtp(s: string) returns (r: Option<nat>)
    ensures r == FindOtp(s)
  {
    var i, run := 0, 0;
    while i < |s|
      invariant 0 <= run <= i <= |s| && run < OtpLength
      invariant forall j :: i - run <= j < i ==> IsDigit(s[j])
      invariant i - run == 0 || !IsDigit(s[i - run - 1])
      invariant forall j :: 0 <= j && j + OtpLength <= i ==> !OtpAt(s, j)
    {
      if IsDigit(s[i]) {
        run := run + 1;
        if run == OtpLength {
          LeftmostIsUnique(s, i + 1 - OtpLength);
          return Some(i + 1 - OtpLength);
        }
      } else {
        run := 0;
      }
      i := i + 1;
    }
    r := None;
  }

  /** `handleOtpMsg` with the configured key `authKey`. A body that is not
      JSON is refused with 400; a wrong or missing key with 403, before the
      message is looked at; a message that is present but not a string
      makes the search raise, which the web framework answers with 500. */
  function HandleOtp(req: OtpRequest, authKey: string): (r: Response)
    ensures r.enqueued.Some? <==> r.status == 200
    ensures req.json.None? ==> r == Response(400, None)
    ensures req.json.Some? && req.json.value.authKey != Some(JString(authKey)) ==> r == Response(403, None)
    ensures req.json.Some? && req.json.value.authKey == Some(JString(authKey)) ==>
              (req.json.value.msgBody.Some? && !req.json.value.msgBody.value.JString? ==> r == Response(500, None))
    ensures req.json.Some? && req.json.value.authKey == Some(JString(authKey)) ==>
              (req.json.value.msgBody.None? ||
               (req.json.value.msgBody.value.JString? && FindOtp(req.json.value.msgBody.value.text).None?)
               ==> r == Response(400, None))
    ensures r.status == 200 <==>
              && req.json.Some? && req.json.value.authKey == Some(JString(authKey))
              && req.json.value.msgBody.Some? && req.json.value.msgBody.value.JString?
              && FindOtp(req.json.value.msgBody.value.text).Some?
    ensures r.status == 200 ==>
              var msg := req.json.value.msgBody.value.text;
              var k := FindOtp(msg).value;
              r.enqueued == Some(msg[k..k + OtpLength])
    ensures r.enqueued.Some? ==>
              |r.enqueued.value| == OtpLength && forall j :: 0 <= j < OtpLength ==> IsDigit(r.enqueued.value[j])
  {
    match req.json
    case None => Response(400, None)
    case Some(fields) =>
      if fields.authKey != Some(JString(authKey)) then
        Response(403, None)
      else
        var msg := if fields.msgBody.None? then JString("") else fields.msgBody.value;
        if !msg.JString? then
          Response(500, None)
        else
          match FindOtp(msg.text)
          case None => Response(400, None)
          case Some(k) => Response(200, Some(msg.text[k..k + OtpLength]))
  }

  /** A seven-digit run yields its first six digits. */
  lemma SevenDigitsYieldFirstSix(authKey: string)
    ensures HandleOtp(OtpRequest(Some(Fields(Some(JString("OTP 1234567")), Some(JString(authKey))))), authKey)
            == Response(200, Some("123456"))
  {
    var s := "OTP 1234567";
    forall j | 0 <= j < 4 ensures !OtpAt(s, j) {
      assert !IsDigit(s[3]);
    }
    assert OtpAt(s, 4);
    LeftmostIsUnique(s, 4);
    assert s[4..10] == "123456";
  }

  /** With the right key, a message holding no six digits in a row is
      refused with 400 and nothing is queued. */
  lemma NoOtpIsRefused(msg: string, authKey: string)
    requires FindOtp(msg).None?
    ensures HandleOtp(OtpRequest(Some(Fields(Some(JString(msg)), Some(JString(authKey))))), authKey) == Response(400, None)
  {
  }

  /** A message with fewer than six digits in a row is refused. */
  lemma ShortCodeIsRefused(authKey: string)
    ensures HandleOtp(OtpRequest(Some(Fields(Some(JString("12345")), Some(JString(authKey))))), authKey)
            == Response(400, None)
  {
  }

  /** Without a message the text searched is empty, so the request is refused. */
  lemma MissingMessageIsRefused(authKey: string)
    ensures HandleOtp(OtpRequest(Some(Fields(None, Some(JString(authKey))))), authKey) == Response(400, None)
  {
  }
}
