/**
 * The browser side (public/app.js): the session kept in `localStorage`, the
 * credential headers sent with every write, the error path on a 401, the
 * points stepper, the text colour picked for a coloured badge, the relative
 * age of a history row, and the checks made before a request is sent.
 */
module Client {
  import opened Wrappers
  import opened Text
  import opened Js
  import opened Sessions
  import opened Ledger
  import opened Tags

  /** The error `handleApiResponse` throws, which the callers recognise and keep quiet about. */
  const SESSION_EXPIRED: string := "Session expired. Please login again."

  /** The tag a points request carries when no tag is selected. */
  const DEFAULT_TAG: string := "General"

  const BLACK: string := "#000000"
  const WHITE: string := "#ffffff"

  // ---------------------------------------------------------------------------
  // Credential headers
  // ---------------------------------------------------------------------------

  /** The headers of a request: `Content-Type` is always `application/json`. */
  datatype Headers = Headers(contentType: string, sessionToken: Option<string>, password: Option<string>)

  /**
   * `getAuthHeaders`: the session token when one is held, otherwise the
   * password when one is held, otherwise no credential at all; never both.
   */
  function AuthHeaders(sessionToken: Option<string>, password: string): (h: Headers)
    ensures h.contentType == "application/json"
    ensures !(h.sessionToken.Some? && h.password.Some?)
    ensures h.sessionToken.Some? <==> OrElse(sessionToken, "") != ""
    ensures h.sessionToken.Some? ==> h.sessionToken == sessionToken
    ensures h.password.Some? <==> OrElse(sessionToken, "") == "" && password != ""
    ensures h.password.Some? ==> h.password == Some(password)
  {
    if sessionToken.Some? && sessionToken.value != "" then Headers("application/json", sessionToken, None)
    else if password != "" then Headers("application/json", None, Some(password))
    else Headers("application/json", None, None)
  }

  /** What the server's `authenticate` reads from these headers. */
  function ToCredentials(h: Headers): Credentials {
    Credentials(h.password, h.sessionToken)
  }

  /** A client holding a live session is let through, whatever password it remembers. */
  lemma LiveSessionHeadersAuthorize(sessions: SessionTable, adminPassword: string, token: string, password: string, now: int)
    requires token != "" && IsLive(sessions, token, now)
    ensures Authorize(sessions, adminPassword, ToCredentials(AuthHeaders(Some(token), password)), now)
  {
    LiveTokenAuthorizes(sessions, adminPassword, token, None, now);
  }

  /** A client without a token is let through exactly when its trimmed password matches. */
  lemma PasswordHeadersAuthorize(sessions: SessionTable, env: Option<string>, password: string, now: int)
    ensures Authorize(sessions, AdminPassword(env), ToCredentials(AuthHeaders(None, password)), now)
        <==> Trim(password) == AdminPassword(env)
  {
    if password == "" {
      assert Trim("") == "" by { TrimOfBlank(""); }
    }
  }

  /**
   * A token the server no longer accepts hides the password: the request is
   * refused even when the client knows the right password, until a 401 makes
   * it drop the token.
   */
  lemma StaleTokenShadowsPassword(sessions: SessionTable, env: Option<string>, token: string, password: string, now: int)
    requires token != "" && !IsLive(sessions, token, now)
    ensures !Authorize(sessions, AdminPassword(env), ToCredentials(AuthHeaders(Some(token), password)), now)
  {
    TrimOfBlank("");
  }

  // ---------------------------------------------------------------------------
  // Page state: the globals and the two localStorage keys
  // ---------------------------------------------------------------------------

  class App {
    /** The `password` global: the text typed into the login form, cleared again once the login answers. */
    var password: string
    /** The `sessionToken` global; `None` is `null`. */
    var sessionToken: Option<string>
    /** `localStorage['kids_points_session']`; `None` when the key is absent. */
    var storedToken: Option<string>
    /** `localStorage['kids_points_session_expiry']`, as the instant it denotes; `None` when absent. */
    var storedExpiry: Option<int>
    /** The number in the points input. */
    var pointsInput: int

    /** Page load: fresh globals over whatever the storage kept from an earlier visit. */
    constructor(storedToken: Option<string>, storedExpiry: Option<int>, pointsInput: int)
      ensures password == "" && sessionToken == None
      ensures this.storedToken == storedToken && this.storedExpiry == storedExpiry
      ensures this.pointsInput == pointsInput
    {
      password := "";
      sessionToken := None;
      this.storedToken := storedToken;
      this.storedExpiry := storedExpiry;
      this.pointsInput := pointsInput;
    }

    /** Both keys are set and the token is non-empty (`token && expiry`). */
    predicate HasStoredPair()
      reads this
    {
      OrElse(storedToken, "") != "" && storedExpiry.Some?
    }

    /** The headers the next request will carry. */
    function OutgoingHeaders(): Headers
      reads this
    {
      AuthHeaders(sessionToken, password)
    }

    /**
     * `getStoredSession`: the stored token while its expiry is ahead of `now`;
     * an expired pair is cleared; with a key missing nothing changes.
     */
    method GetStoredSession(now: int) returns (r: Option<string>)
      modifies this`storedToken, this`storedExpiry, this`sessionToken
      ensures r.Some? <==> old(HasStoredPair()) && old(storedExpiry).value > now
      ensures r.Some? ==> r == old(storedToken)
      ensures old(HasStoredPair()) && old(storedExpiry).value <= now ==>
        storedToken == None && storedExpiry == None && sessionToken == None
      ensures !(old(HasStoredPair()) && old(storedExpiry).value <= now) ==>
        storedToken == old(storedToken) && storedExpiry == old(storedExpiry) && sessionToken == old(sessionToken)
    {
      if HasStoredPair() {
        if storedExpiry.value > now {
          return storedToken;
        } else {
          ClearStoredSession();
        }
      }
      r := None;
    }

    /** `storeSession`: both keys written and the token held. */
    method StoreSession(token: string, expiresAt: int)
      modifies this`storedToken, this`storedExpiry, this`sessionToken
      ensures storedToken == Some(token) && storedExpiry == Some(expiresAt) && sessionToken == Some(token)
    {
      storedToken := Some(token);
      storedExpiry := Some(expiresAt);
      sessionToken := Some(token);
    }

    /** `clearStoredSession`: both keys removed and the token dropped. */
    method ClearStoredSession()
      modifies this`storedToken, this`storedExpiry, this`sessionToken
      ensures storedToken == None && storedExpiry == None && sessionToken == None
    {
      storedToken := None;
      storedExpiry := None;
      sessionToken := None;
    }

    /**
     * A session stored after login is found again at any instant before its
     * expiry, and the token stays held.
     */
    method StoreThenGetStoredSession(token: string, expiresAt: int, now: int) returns (r: Option<string>)
      requires token != "" && now < expiresAt
      modifies this`storedToken, this`storedExpiry, this`sessionToken
      ensures r == Some(token) && sessionToken == Some(token)
      ensures storedToken == Some(token) && storedExpiry == Some(expiresAt)
    {
      StoreSession(token, expiresAt);
      r := GetStoredSession(now);
    }

    /**
     * `handleApiResponse`: a 401 forgets the session and fails with the
     * session-expired error; any other status passes through untouched. After
     * a 401 the next request carries the password if one is held, and none
     * otherwise.
     */
    method HandleApiResponse(status: int) returns (r: Result<int, string>)
      modifies this`storedToken, this`storedExpiry, this`sessionToken
      ensures status == 401 ==>
        && r == Failure(SESSION_EXPIRED)
        && storedToken == None && storedExpiry == None && sessionToken == None
        && OutgoingHeaders().sessionToken == None
        && OutgoingHeaders().password == (if password != "" then Some(password) else None)
      ensures status != 401 ==>
        r == Success(status)
        && storedToken == old(storedToken) && storedExpiry == old(storedExpiry) && sessionToken == old(sessionToken)
    {
      if status == 401 {
        ClearStoredSession();
        return Failure(SESSION_EXPIRED);
      }
      r := Success(status);
    }

    /** `incrementPoints`: one more. */
    method IncrementPoints()
      modifies this`pointsInput
      ensures pointsInput == old(pointsInput) + 1
    {
      pointsInput := pointsInput + 1;
    }

    /** `decrementPoints`: one less, but never below 1 from a value of at least 1. */
    method DecrementPoints()
      modifies this`pointsInput
      ensures old(pointsInput) > 1 ==> pointsInput == old(pointsInput) - 1
      ensures old(pointsInput) <= 1 ==> pointsInput == old(pointsInput)
      ensures old(pointsInput) >= 1 ==> pointsInput >= 1
      ensures pointsInput <= old(pointsInput)
    {
      if pointsInput > 1 {
        pointsInput := pointsInput - 1;
      }
    }
  }

  // ---------------------------------------------------------------------------
  // getContrastColor
  // ---------------------------------------------------------------------------

  /** `s.substr(start, length)` for a non-negative start: clipped to the string. */
  function Substr(s: string, start: nat, length: nat): (r: string)
    ensures |r| <= length
    ensures start + length <= |s| ==> r == s[start..start + length]
  {
    var from := if start <= |s| then start else |s|;
    var to := if start + length <= |s| then start + length else |s|;
    s[from..to]
  }

  /** The first position at or after `from` that is not whitespace. */
  function SkipWhitespace(s: string, from: nat): (p: nat)
    requires from <= |s|
    ensures from <= p <= |s|
    ensures forall k :: from <= k < p ==> IsJsWhitespace(s[k])
    ensures p == |s| || !IsJsWhitespace(s[p])
    decreases |s| - from
  {
    if from < |s| && IsJsWhitespace(s[from]) then SkipWhitespace(s, from + 1) else from
  }

  /** The end of the run of hexadecimal digits that starts at `from`. */
  function HexRunEnd(s: string, from: nat): (e: nat)
    requires from <= |s|
    ensures from <= e <= |s|
    ensures forall k :: from <= k < e ==> IsHexDigit(s[k])
    ensures e == |s| || !IsHexDigit(s[e])
    decreases |s| - from
  {
    if from < |s| && IsHexDigit(s[from]) then HexRunEnd(s, from + 1) else from
  }

  /** The value of the hexadecimal digits `s[lo..hi]`, most significant first. */
  function HexValue(s: string, lo: nat, hi: nat): (n: nat)
    requires lo <= hi <= |s|
    requires forall k :: lo <= k < hi ==> IsHexDigit(s[k])
    decreases hi
  {
    if lo == hi then 0 else 16 * HexValue(s, lo, hi - 1) + HexDigitValue(s[hi - 1])
  }

  /**
   * `parseInt(s, 16)`: leading whitespace skipped, one optional sign, an
   * optional `0x`/`0X`, then the longest run of hexadecimal digits; `None` is
   * `NaN`, when that run is empty.
   */
  function ParseIntHex(s: string): (r: Option<int>)
    ensures r.Some? ==> exists k :: 0 <= k < |s| && IsHexDigit(s[k])
  {
    var p := SkipWhitespace(s, 0);
    var negative := p < |s| && s[p] == '-';
    var q := if p < |s| && (s[p] == '-' || s[p] == '+') then p + 1 else p;
    var d := if q + 1 < |s| && s[q] == '0' && (s[q + 1] == 'x' || s[q + 1] == 'X') then q + 2 else q;
    var e := HexRunEnd(s, d);
    if e == d then None
    else
      var magnitude: int := HexValue(s, d, e);
      Some(if negative then -magnitude else magnitude)
  }

  /** Two hexadecimal digits parse to the byte they spell. */
  lemma ParseTwoHexDigits(s: string)
    requires |s| == 2 && IsHexDigit(s[0]) && IsHexDigit(s[1])
    ensures ParseIntHex(s) == Some(16 * HexDigitValue(s[0]) + HexDigitValue(s[1]))
  {
    assert !IsJsWhitespace(s[0]);
    assert SkipWhitespace(s, 0) == 0;
    assert HexRunEnd(s, 0) == 2;
  }

  /** `parseInt` reads back every byte `toString(16)`-style encoding writes. */
  lemma ParseIntHexOfByte(b: Byte)
    ensures ParseIntHex(HexEncode([b])) == Some(b)
  {
    var s := HexEncode([b]);
    assert forall k :: 0 <= k < |s| ==> IsHexDigit(s[k]);
    ParseTwoHexDigits(s);
    HexRoundTrip([b]);
  }

  /** A `#RRGGBB` colour. */
  predicate IsHexColor(hex: string) {
    |hex| == 7 && hex[0] == '#' && forall k :: 1 <= k < 7 ==> IsHexDigit(hex[k])
  }

  /** The channel whose two digits start at `i`. */
  function Channel(hex: string, i: nat): (c: int)
    requires IsHexColor(hex) && (i == 1 || i == 3 || i == 5)
    ensures 0 <= c < 256
  {
    16 * HexDigitValue(hex[i]) + HexDigitValue(hex[i + 1])
  }

  /** `brightness > 155` for `brightness = (299r + 587g + 114b) / 1000` on reals. */
  predicate Bright(r: int, g: int, b: int) {
    ((299 * r + 587 * g + 114 * b) as real) / 1000.0 > 155.0
  }

  /** On integer channels the real-valued test is an integer threshold. */
  lemma BrightThreshold(r: int, g: int, b: int)
    ensures Bright(r, g, b) <==> 299 * r + 587 * g + 114 * b > 155000
  {
    var x := 299 * r + 587 * g + 114 * b;
    assert (x as real) / 1000.0 * 1000.0 == x as real;
  }

  /**
   * `getContrastColor`: black on a bright background, white otherwise; a
   * channel that does not parse makes the brightness `NaN` and the text white.
   */
  function ContrastColor(hex: string): (c: string)
    ensures c == BLACK || c == WHITE
    ensures c == BLACK ==>
      && ParseIntHex(Substr(hex, 1, 2)).Some?
      && ParseIntHex(Substr(hex, 3, 2)).Some?
      && ParseIntHex(Substr(hex, 5, 2)).Some?
  {
    var r := ParseIntHex(Substr(hex, 1, 2));
    var g := ParseIntHex(Substr(hex, 3, 2));
    var b := ParseIntHex(Substr(hex, 5, 2));
    if r.Some? && g.Some? && b.Some? && Bright(r.value, g.value, b.value) then BLACK else WHITE
  }

  /** Each two-digit field of a `#RRGGBB` colour parses to its channel. */
  lemma ChannelParses(hex: string, i: nat)
    requires IsHexColor(hex) && (i == 1 || i == 3 || i == 5)
    ensures ParseIntHex(Substr(hex, i, 2)) == Some(Channel(hex, i))
  {
    var field := ChannelField(hex, i);
    ParseTwoHexDigitsTo(field, Channel(hex, i));
  }

  /** `ParseTwoHexDigits` with the expected value named by the caller. */
  lemma ParseTwoHexDigitsTo(s: string, v: int)
    requires |s| == 2 && IsHexDigit(s[0]) && IsHexDigit(s[1])
    requires v == 16 * HexDigitValue(s[0]) + HexDigitValue(s[1])
    ensures ParseIntHex(s) == Some(v)
  {
    ParseTwoHexDigits(s);
  }

  /** The two characters `substr(i, 2)` takes from a `#RRGGBB` colour are the channel's digits. */
  lemma ChannelField(hex: string, i: nat) returns (field: string)
    requires IsHexColor(hex) && (i == 1 || i == 3 || i == 5)
    ensures field == Substr(hex, i, 2)
    ensures |field| == 2 && IsHexDigit(field[0]) && IsHexDigit(field[1])
    ensures 16 * HexDigitValue(field[0]) + HexDigitValue(field[1]) == Channel(hex, i)
  {
    field := Substr(hex, i, 2);
    assert field == hex[i..i + 2];
    assert field[0] == hex[i] && field[1] == hex[i + 1];
  }

  /** For a well-formed colour the choice is an integer threshold on the weighted channels. */
  lemma ContrastOfHexColor(hex: string)
    requires IsHexColor(hex)
    ensures ContrastColor(hex) == BLACK <==> 299 * Channel(hex, 1) + 587 * Channel(hex, 3) + 114 * Channel(hex, 5) > 155000
    ensures ContrastColor(hex) == WHITE <==> 299 * Channel(hex, 1) + 587 * Channel(hex, 3) + 114 * Channel(hex, 5) <= 155000
  {
    ChannelParses(hex, 1);
    ChannelParses(hex, 3);
    ChannelParses(hex, 5);
    BrightThreshold(Channel(hex, 1), Channel(hex, 3), Channel(hex, 5));
  }

  /** A colour too short to hold a red channel gets white text. */
  lemma ContrastOfShortColor(hex: string)
    requires |hex| <= 1
    ensures ContrastColor(hex) == WHITE
  {
  }

  // ---------------------------------------------------------------------------
  // formatTimestamp (relative branches)
  // ---------------------------------------------------------------------------

  /** The relative ages `formatTimestamp` writes; the last stands for the locale date. */
  datatype Age = JustNow | MinutesAgo(minutes: int) | HoursAgo(hours: int) | OlderThanADay

  /** The age of a row `diff` milliseconds old. */
  function FormatAge(diff: int): (a: Age)
    ensures a == JustNow <==> diff < 60000
    ensures a.MinutesAgo? <==> 60000 <= diff < 3600000
    ensures a.MinutesAgo? ==> 1 <= a.minutes < 60 && a.minutes * 60000 <= diff < (a.minutes + 1) * 60000
    ensures a.HoursAgo? <==> 3600000 <= diff < 86400000
    ensures a.HoursAgo? ==> 1 <= a.hours < 24 && a.hours * 3600000 <= diff < (a.hours + 1) * 3600000
    ensures a == OlderThanADay <==> diff >= 86400000
  {
    if diff < 60000 then JustNow
    else if diff < 3600000 then MinutesAgo(diff / 60000)
    else if diff < 86400000 then HoursAgo(diff / 3600000)
    else OlderThanADay
  }

  /** Ages ranked from youngest to oldest, in milliseconds' worth of precision. */
  function AgeRank(a: Age): int {
    match a
    case JustNow => 0
    case MinutesAgo(m) => m * 60000
    case HoursAgo(h) => h * 3600000
    case OlderThanADay => 86400000
  }

  /** An older row never shows a younger age. */
  lemma FormatAgeMonotone(d1: int, d2: int)
    requires d1 <= d2
    ensures AgeRank(FormatAge(d1)) <= AgeRank(FormatAge(d2))
  {
    var a1, a2 := FormatAge(d1), FormatAge(d2);
    if a1.MinutesAgo? && a2.MinutesAgo? {
      assert a1.minutes * 60000 <= d1 < (a2.minutes + 1) * 60000;
    } else if a1.HoursAgo? && a2.HoursAgo? {
      assert a1.hours * 3600000 <= d1 < (a2.hours + 1) * 3600000;
    }
  }

  // ---------------------------------------------------------------------------
  // Checks made before a request is sent
  // ---------------------------------------------------------------------------

  /** What a click does: send the request, or stop with an alert. */
  datatype Outcome<T> = Send(request: T) | Blocked(alert: string)

  /** The `PUT /api/kids/:id` that `updateKid` sends. */
  datatype KidUpdate = KidUpdate(kidId: int, name: string, initials: string, color: string, headers: Headers)

  /**
   * `updateKid`: initials upper-cased; nothing is sent without a name and
   * initials two UTF-16 code units long, or without any credential to send.
   */
  function UpdateKidRequest(kidId: int, name: string, initialsInput: string, color: string,
                            sessionToken: Option<string>, password: string): (r: Outcome<KidUpdate>)
    ensures r.Send? <==> name != "" && Utf16Length(initialsInput) == 2 && (OrElse(sessionToken, "") != "" || password != "")
    ensures r.Send? ==>
      && r.request.kidId == kidId && r.request.name == name && r.request.color == color
      && Utf16Length(r.request.initials) == 2 && r.request.initials == ToUpperAscii(initialsInput)
      && r.request.headers == AuthHeaders(sessionToken, password)
    ensures name == "" || Utf16Length(initialsInput) != 2 ==> r == Blocked("Please enter a name and exactly 2 letters for initials")
    ensures name != "" && Utf16Length(initialsInput) == 2 && OrElse(sessionToken, "") == "" && password == "" ==>
      r == Blocked(SESSION_EXPIRED)
  {
    var initials := ToUpperAscii(initialsInput);
    ToUpperAsciiKeepsUtf16Length(initialsInput);
    if name == "" || initials == "" || Utf16Length(initials) != 2 then
      Blocked("Please enter a name and exactly 2 letters for initials")
    else
      var headers := AuthHeaders(sessionToken, password);
      if headers.sessionToken.None? && headers.password.None? then Blocked(SESSION_EXPIRED)
      else Send(KidUpdate(kidId, name, initials, color, headers))
  }

  /**
   * The length check counts UTF-16 code units: one character beyond U+FFFF,
   * such as an emoji, passes as two initials, while two such characters do not.
   */
  lemma InitialsCountCodeUnits(kidId: int, name: string, color: string, password: string)
    requires name != "" && password != ""
    ensures UpdateKidRequest(kidId, name, "\U{1F600}", color, None, password).Send?
    ensures UpdateKidRequest(kidId, name, "\U{1F600}\U{1F600}", color, None, password).Blocked?
    ensures UpdateKidRequest(kidId, name, "ab", color, None, password).Send?
  {
    Utf16LengthTwo("\U{1F600}");
    Utf16LengthTwo("\U{1F600}\U{1F600}");
    Utf16LengthTwo("ab");
  }

  /** Upper-cased initials are the same letters: lower-case ASCII letters become capitals. */
  lemma UpperInitials(initialsInput: string)
    requires |initialsInput| == 2 && forall k :: 0 <= k < 2 ==> 'a' <= initialsInput[k] <= 'z' || 'A' <= initialsInput[k] <= 'Z'
    ensures var u := ToUpperAscii(initialsInput);
      forall k :: 0 <= k < 2 ==> 'A' <= u[k] <= 'Z' && (u[k] == initialsInput[k] || u[k] as int == initialsInput[k] as int - 32)
  {
  }

  /** The `POST /api/tags` that `createNewTag` sends. */
  datatype NewTag = NewTag(name: string, color: string, isPositive: bool, headers: Headers)

  /** `createNewTag`: the trimmed name, which must not be empty; type `'1'` is positive. */
  function NewTagRequest(nameInput: string, typeValue: string, color: string,
                         sessionToken: Option<string>, password: string): (r: Outcome<NewTag>)
    ensures r.Send? <==> !AllWhitespace(nameInput)
    ensures r.Send? ==>
      && r.request.name != "" && Unpadded(r.request.name) && r.request.name == Trim(nameInput)
      && (r.request.isPositive <==> typeValue == "1")
      && r.request.color == color && r.request.headers == AuthHeaders(sessionToken, password)
    ensures r.Blocked? ==> r.alert == "Please enter a tag name"
  {
    var name := Trim(nameInput);
    TrimOfBlank(nameInput);
    if name == "" then Blocked("Please enter a tag name")
    else Send(NewTag(name, color, typeValue == "1", AuthHeaders(sessionToken, password)))
  }

  /** A tag created as positive is stored with flag 1, otherwise with flag 0. */
  lemma NewTagFlagStored(nameInput: string, typeValue: string, color: string, sessionToken: Option<string>, password: string)
    requires NewTagRequest(nameInput, typeValue, color, sessionToken, password).Send?
    ensures var t := NewTagRequest(nameInput, typeValue, color, sessionToken, password).request;
      PositiveFlag(Bool(t.isPositive)) == (if typeValue == "1" then 1 else 0)
  {
  }

  /** The `POST /api/transactions` of `addPoints` and `removePoints`. */
  datatype PointsChange = PointsChange(kidId: int, points: int, tag: string, headers: Headers)

  /**
   * `addPoints` / `removePoints`: nothing is sent without a selected kid (id
   * `null` or 0); removal sends the negated amount; the tag defaults to
   * `'General'`.
   */
  function PointsRequest(selectedKid: Option<int>, points: int, selectedTag: Option<string>, remove: bool,
                         sessionToken: Option<string>, password: string): (r: Outcome<PointsChange>)
    ensures r.Send? <==> selectedKid.Some? && selectedKid.value != 0
    ensures r.Blocked? ==> r.alert == "Please select a kid first"
    ensures r.Send? ==>
      && r.request.kidId == selectedKid.value
      && r.request.points == (if remove then -points else points)
      && r.request.tag == (if OrElse(selectedTag, "") == "" then DEFAULT_TAG else selectedTag.value)
      && r.request.headers == AuthHeaders(sessionToken, password)
  {
    if selectedKid.None? || selectedKid.value == 0 then Blocked("Please select a kid first")
    else Send(PointsChange(selectedKid.value, if remove then -points else points,
                           OrElse(selectedTag, DEFAULT_TAG), AuthHeaders(sessionToken, password)))
  }

  /**
   * Adding points and then removing the same number for the same kid leaves
   * every balance as it was once both requests are applied.
   */
  lemma AddThenRemoveRestores(kids: seq<Kid>, kidId: int, points: int, tag: Option<string>,
                              sessionToken: Option<string>, password: string)
    requires kidId != 0
    ensures var add := PointsRequest(Some(kidId), points, tag, false, sessionToken, password).request;
      var remove := PointsRequest(Some(kidId), points, tag, true, sessionToken, password).request;
      Credit(Credit(kids, add.kidId, add.points), remove.kidId, remove.points) == kids
  {
    CreditUndone(kids, kidId, points);
  }
}
