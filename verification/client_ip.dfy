/** `getClientIp`: the network-address half of a voter's identity. */
module ClientIp {
  import opened JsString
  import opened Wrappers

  /** What `getClientIp` reads from a request. `forwardedFor` is `None` unless the
      `x-forwarded-for` header is a string; `ip` (`req.ip`) and `remoteAddress`
      (`req.socket?.remoteAddress`) are `""` when absent or otherwise falsy. */
  datatype RequestInfo = RequestInfo(forwardedFor: Option<string>, ip: string, remoteAddress: string)

  /** `s.split(",")[0]`: the text before the first comma, or all of `s` if it has none. */
  function FirstSegment(s: string): (r: string)
    ensures r <= s && ',' !in r
    ensures |r| < |s| ==> s[|r|] == ','
  {
    if |s| == 0 || s[0] == ',' then "" else [s[0]] + FirstSegment(s[1..])
  }

  /** The forwarded header is used when it is a string with a non-blank trim. */
  predicate UsesForwardedHeader(req: RequestInfo) {
    req.forwardedFor.Some? && Trim(req.forwardedFor.value) != ""
  }

  function GetClientIp(req: RequestInfo): (r: string)
    ensures UsesForwardedHeader(req) ==> IsTrimmed(r) && ',' !in r
    ensures !UsesForwardedHeader(req) ==> r != ""
  {
    if UsesForwardedHeader(req) then
      var seg := FirstSegment(req.forwardedFor.value);
      TrimHasNoNewChars(seg, ',');
      Trim(seg)
    else if req.ip != "" then req.ip
    else if req.remoteAddress != "" then req.remoteAddress
    else "unknown"
  }

  lemma TrimHasNoNewChars(s: string, c: char)
    requires c !in s
    ensures c !in Trim(s)
  {
    var a, b := TrimSplits(s);
    assert forall k :: 0 <= k < |Trim(s)| ==> Trim(s)[k] == s[|a| + k];
  }

  lemma {:induction false} FirstSegmentOf(seg: string, rest: string)
    requires ',' !in seg
    ensures FirstSegment(seg) == seg
    ensures FirstSegment(seg + [','] + rest) == seg
    decreases |seg|
  {
    if |seg| > 0 {
      FirstSegmentOf(seg[1..], rest);
      assert (seg + [','] + rest)[1..] == seg[1..] + [','] + rest;
      assert seg == [seg[0]] + seg[1..];
    } else {
      assert (seg + [','] + rest)[0] == ',';
    }
  }

  /** With a usable `x-forwarded-for` header, the address is the trimmed entry before
      the first comma (the whole header when it has no comma). */
  lemma ForwardedFirstEntry(req: RequestInfo, seg: string, rest: string)
    requires ',' !in seg
    requires req.forwardedFor == Some(seg + [','] + rest) || req.forwardedFor == Some(seg)
    requires Trim(req.forwardedFor.value) != ""
    ensures GetClientIp(req) == Trim(seg)
  {
    FirstSegmentOf(seg, rest);
  }

  /** Without a usable header the address falls back from `req.ip` to the socket's
      remote address to the literal `"unknown"`, and is never empty. */
  lemma FallbackChain(req: RequestInfo)
    requires !UsesForwardedHeader(req)
    ensures req.ip != "" ==> GetClientIp(req) == req.ip
    ensures req.ip == "" && req.remoteAddress != "" ==> GetClientIp(req) == req.remoteAddress
    ensures req.ip == "" && req.remoteAddress == "" ==> GetClientIp(req) == "unknown"
  {
  }

  /** A header whose first entry is blank but which is not blank overall yields the
      empty address: all such clients share one address identity. */
  lemma BlankFirstEntry()
    ensures GetClientIp(RequestInfo(Some(" ,10.0.0.1"), "10.0.0.2", "")) == ""
  {
    var f := " ,10.0.0.1";
    var tail := ",10.0.0.1";
    assert f == " " + tail;
    TrimStartOfPadded(" ", tail);
    TrimEndOfPadded(tail, "");
    assert tail + "" == tail;
    assert Trim(f) == tail;
    FirstSegmentOf(" ", "10.0.0.1");
    assert f == " " + [','] + "10.0.0.1";
    TrimUnique(" ", "", "");
    assert " " + "" + "" == " ";
  }
}
