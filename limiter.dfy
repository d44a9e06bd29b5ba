/**
 * The rate limiter's key (`get_request_identifier` of the API) and the
 * header the bot's client attaches to every backend request: bot traffic
 * is keyed per Telegram user, other traffic by the forwarding chain's first
 * address or the client's address.
 */
module Limiter {
  import opened Wrappers
  import opened PyStr

  /** A request's headers in arrival order, as name/value pairs. */
  type Headers = seq<(string, string)>

  /** Header names compare without regard to ASCII case. */
  predicate SameName(a: string, b: string)
  {
    |a| == |b| && forall i :: 0 <= i < |a| ==> LowerChar(a[i]) == LowerChar(b[i])
  }

  /** `request.headers.get(name)`: the first header whose name is `name` up to case. */
  function HeaderGet(hs: Headers, name: string): (r: Option<string>)
    ensures r.Some? ==> exists i :: 0 <= i < |hs| && SameName(hs[i].0, name) && hs[i].1 == r.value
    ensures r.None? <==> forall i :: 0 <= i < |hs| ==> !SameName(hs[i].0, name)
  {
    if hs == [] then None
    else if SameName(hs[0].0, name) then Some(hs[0].1)
    else HeaderGet(hs[1..], name)
  }

  const UserIdHeader := "X-Telegram-User-ID"
  const ForwardedForHeader := "X-Forwarded-For"
  const LocalAddress := "127.0.0.1"

  /** A header value as a Python condition: present and non-empty. */
  predicate Truthy(v: Option<string>)
  {
    v.Some? && v.value != ""
  }

  /**
   * `get_request_identifier`. `clientAddress` is what the limiter library's
   * `get_ipaddr` gives for the request, `""` when it has none.
   */
  function RequestIdentifier(hs: Headers, clientAddress: string): string
  {
    var userId := HeaderGet(hs, UserIdHeader);
    var forwarded := HeaderGet(hs, ForwardedForHeader);
    if Truthy(userId) then userId.value
    else if Truthy(forwarded) then Strip(Split(forwarded.value, ',')[0])
    else if clientAddress != "" then clientAddress
    else LocalAddress
  }

  /** The first piece of a split is the text before the first separator. */
  lemma {:induction false} FirstFieldIsPrefix(s: string, c: char)
    ensures Split(s, c)[0] <= s && c !in Split(s, c)[0]
    ensures c in s ==> Split(s, c)[0] + [c] <= s
    decreases |s|
  {
    if s != [] && s[0] != c {
      FirstFieldIsPrefix(s[1..], c);
      var f := Split(s[1..], c)[0];
      assert Split(s, c)[0] == [s[0]] + f;
      if c in s {
        assert c in s[1..];
        assert [s[0]] + f + [c] == [s[0]] + (f + [c]);
      }
    }
  }

  /** Stripping keeps only characters that were there. */
  lemma StripKeeps(s: string, c: char)
    requires c !in s
    ensures c !in Strip(s)
  {
    var l := LStrip(s);
    assert l == s[|s| - |l|..];
    var r := RStrip(l);
    assert r == l[..|r|];
  }

  /**
   * The key, case by case: a non-empty user-id header as it is; otherwise
   * the forwarding chain's text before its first comma, stripped; otherwise
   * the client's address, or the loopback address when there is none.
   * Only the forwarding case can give an empty key (a first field of
   * blanks).
   */
  lemma IdentifierCases(hs: Headers, clientAddress: string)
    ensures var r := RequestIdentifier(hs, clientAddress);
      var userId := HeaderGet(hs, UserIdHeader);
      var forwarded := HeaderGet(hs, ForwardedForHeader);
      && (Truthy(userId) ==> r == userId.value)
      && (!Truthy(userId) && Truthy(forwarded) ==>
            ',' !in r && exists field :: field <= forwarded.value && ',' !in field && r == Strip(field)
                                         && (',' in forwarded.value ==> field + [','] <= forwarded.value))
      && (!Truthy(userId) && !Truthy(forwarded) ==> r == if clientAddress != "" then clientAddress else LocalAddress)
      && (Truthy(userId) || !Truthy(forwarded) ==> r != "")
  {
    assert LocalAddress != "";
    var userId := HeaderGet(hs, UserIdHeader);
    var forwarded := HeaderGet(hs, ForwardedForHeader);
    if !Truthy(userId) && Truthy(forwarded) {
      var field := Split(forwarded.value, ',')[0];
      FirstFieldIsPrefix(forwarded.value, ',');
      StripKeeps(field, ',');
    }
  }

  /** The headers the bot's client sends: the user id whenever there is one, and `Accept` for binary answers. */
  function BotHeaders(userId: Option<int>, binary: bool): Headers
  {
    (if userId.Some? then [(UserIdHeader, IntToString(userId.value))] else [])
    + (if binary then [("Accept", "*/*")] else [])
  }

  /**
   * Whatever headers a proxy appends, a bot request for a user is keyed by
   * that user's id, printed as Python prints it; reading the key back as an
   * integer gives the user.
   */
  lemma BotTrafficKeyedPerUser(userId: int, binary: bool, appended: Headers, clientAddress: string)
    ensures RequestIdentifier(BotHeaders(Some(userId), binary) + appended, clientAddress) == IntToString(userId)
    ensures ParseInt(RequestIdentifier(BotHeaders(Some(userId), binary) + appended, clientAddress)) == Some(userId)
  {
    var hs := BotHeaders(Some(userId), binary) + appended;
    assert hs[0] == (UserIdHeader, IntToString(userId));
    assert HeaderGet(hs, UserIdHeader) == Some(IntToString(userId));
    ParseIntToString(userId);
  }

  /** Two users never share a rate-limit key. */
  lemma DistinctUsersDistinctKeys(u1: int, u2: int, b1: bool, b2: bool, x1: Headers, x2: Headers, a1: string, a2: string)
    requires u1 != u2
    ensures RequestIdentifier(BotHeaders(Some(u1), b1) + x1, a1) != RequestIdentifier(BotHeaders(Some(u2), b2) + x2, a2)
  {
    BotTrafficKeyedPerUser(u1, b1, x1, a1);
    BotTrafficKeyedPerUser(u2, b2, x2, a2);
  }
}
