/** The classification of a failed direct message, shared by the match
    availability nudge and the player data nudge: a missing bot token and the
    HTTP statuses 401, 403 and 404 block the nudge, everything else fails it. */
module DmFailure {
  import opened Wrappers
  import opened Models
  import Text

  datatype Classification = Classification(status: NudgeStatus, errorCode: string, message: string)

  /** The codes that mean the nudge cannot be delivered as things stand. */
  predicate BlockingCode(code: string) {
    code == "discord_bot_token_missing"
    || Text.EndsWith(code, "_http_401") || Text.EndsWith(code, "_http_403") || Text.EndsWith(code, "_http_404")
  }

  /** `classifyDmFailure`: a missing code defaults to 'dm_send_failed'. */
  function Classify(errorCode: Option<string>, errorMessage: Option<string>): (c: Classification)
    ensures c.errorCode == errorCode.GetOr("dm_send_failed")
    ensures c.status == Blocked <==> BlockingCode(c.errorCode)
    ensures c.status == Failed <==> !BlockingCode(c.errorCode)
    ensures c.status == Failed ==>
      c.message == "Failed to send nudge: " + errorMessage.GetOr("Unknown DM send failure") + "."
  {
    var code := errorCode.GetOr("dm_send_failed");
    var message := errorMessage.GetOr("Unknown DM send failure");
    if code == "discord_bot_token_missing" then
      Classification(Blocked, code, "Cannot send nudge: DISCORD_BOT_TOKEN is not configured.")
    else if Text.EndsWith(code, "_http_401") then
      Classification(Blocked, code, "Cannot send nudge: Discord bot authentication failed.")
    else if Text.EndsWith(code, "_http_403") then
      Classification(Blocked, code, "Cannot send nudge: Discord rejected the DM for this user.")
    else if Text.EndsWith(code, "_http_404") then
      Classification(Blocked, code, "Cannot send nudge: Discord user could not be found.")
    else
      Classification(Failed, code, "Failed to send nudge: " + message + ".")
  }

  /** For a code built as `<prefix>_http_<status>`, the suffix `_http_<t>` with
      a three-digit `t` matches exactly when the status renders as `t`. */
  lemma {:induction false} HttpSuffix(prefix: string, status: nat, t: string)
    requires |t| == 3 && Text.AllDigits(t)
    ensures Text.EndsWith(prefix + "_http_" + Text.NatToString(status), "_http_" + t) <==> Text.NatToString(status) == t
  {
    var d := Text.NatToString(status);
    var code := prefix + "_http_" + d;
    var x := "_http_" + t;
    var n := |code|;
    assert code[n - |d|..] == d;
    assert code[n - |d| - 6..n - |d|] == "_http_";
    if Text.EndsWith(code, x) {
      assert code[n - 9..] == x;
      assert code[n - 4] == '_' && Text.IsDigit(code[n - 3]);
      assert |d| == 3;
      assert d == code[n - 3..] == x[6..] == t;
    }
    if d == t {
      assert code[n - 9..] == "_http_" + d;
    }
  }

  lemma RenderedStatuses()
    ensures Text.NatToString(401) == "401" && Text.NatToString(403) == "403" && Text.NatToString(404) == "404"
  {
    assert Text.NatToString(40) == "40";
  }

  /** The code of an HTTP failure ends with the suffix of a given blocking
      status exactly when it carries that status. */
  lemma HttpCodeIs(prefix: string, status: nat, v: nat)
    requires v == 401 || v == 403 || v == 404
    ensures Text.EndsWith(prefix + "_http_" + Text.NatToString(status), "_http_" + Text.NatToString(v)) <==> status == v
  {
    var t := Text.NatToString(v);
    RenderedStatuses();
    HttpSuffix(prefix, status, t);
    if Text.NatToString(status) == t {
      Text.NatToStringInjective(status, v);
    }
  }

  /** An HTTP failure code from the DM sender blocks the nudge exactly when the
      status is 401, 403 or 404, whatever the prefix before `_http_`. */
  lemma HttpCodeBlocking(prefix: string, status: nat)
    ensures BlockingCode(prefix + "_http_" + Text.NatToString(status)) <==> (status == 401 || status == 403 || status == 404)
  {
    var d := Text.NatToString(status);
    var code := prefix + "_http_" + d;
    RenderedStatuses();
    HttpCodeIs(prefix, status, 401);
    HttpCodeIs(prefix, status, 403);
    HttpCodeIs(prefix, status, 404);
    assert "_http_" + Text.NatToString(401) == "_http_401";
    assert "_http_" + Text.NatToString(403) == "_http_403";
    assert "_http_" + Text.NatToString(404) == "_http_404";
    assert code[|code| - 1] == d[|d| - 1];
    assert code != "discord_bot_token_missing";
  }

  /** A code that does not end in a digit is blocking only as the missing-token code. */
  lemma NonDigitEnd(code: string)
    requires code != [] && !Text.IsDigit(code[|code| - 1])
    ensures BlockingCode(code) <==> code == "discord_bot_token_missing"
  {
    var last := code[|code| - 1];
    assert Text.EndsWith(code, "_http_401") ==> last == '1';
    assert Text.EndsWith(code, "_http_403") ==> last == '3';
    assert Text.EndsWith(code, "_http_404") ==> last == '4';
  }

  /** The fixed codes of the DM sender: a missing token is blocked; the test
      failure, a thrown request, a channel without id and a missing code are failed. */
  lemma FixedCodes()
    ensures Classify(Some("discord_bot_token_missing"), None).status == Blocked
    ensures Classify(Some("discord_dm_test_failure"), None).status == Failed
    ensures Classify(Some("discord_dm_request_failed"), None).status == Failed
    ensures Classify(Some("discord_dm_channel_missing_id"), None).status == Failed
    ensures Classify(None, None).errorCode == "dm_send_failed" && Classify(None, None).status == Failed
  {
    NonDigitEnd("discord_dm_test_failure");
    NonDigitEnd("discord_dm_request_failed");
    NonDigitEnd("discord_dm_channel_missing_id");
    NonDigitEnd("dm_send_failed");
  }
}
