/**
 * The request gates of the chats app: the hour-of-day gate on chat paths,
 * the per-client sliding-window limiter on message submissions, its
 * client-address rule, and the role gate on management paths. Responses are
 * reduced to the decision a gate takes; the clock is a parameter, in whole
 * seconds for the limiter and as the hour of the day for the time gate.
 */
module Middleware {
  import opened Wrappers
  import Seqs

  datatype Decision = Pass | Forbidden | TooManyRequests

  /** `request.user`: anonymous, or authenticated with an optional `role` attribute. */
  datatype Requester = Anonymous | Authenticated(role: Option<string>)

  datatype Request = Request(
    verb: string,                    // `request.method`
    path: string,
    xRequestedWith: Option<string>,  // the `X-Requested-With` header
    xForwardedFor: Option<string>,   // `HTTP_X_FORWARDED_FOR`
    remoteAddr: Option<string>,      // `REMOTE_ADDR`
    user: Requester)

  /** `str.startswith`. */
  predicate StartsWith(s: string, prefix: string)
  {
    prefix <= s
  }

  // ---------------------------------------------------------------------------
  // RestrictAccessByTimeMiddleware

  const ChatPrefix := "/chat/"
  const OpeningHour := 6
  const ClosingHour := 21

  /** Chat paths are served only from 6 AM up to, not including, 9 PM; other paths always pass. */
  function TimeGate(path: string, hour: int): (d: Decision)
    ensures d != TooManyRequests
    ensures d == Pass <==> !StartsWith(path, ChatPrefix) || OpeningHour <= hour < ClosingHour
  {
    if StartsWith(path, ChatPrefix) && !(OpeningHour <= hour < ClosingHour) then Forbidden else Pass
  }

  // ---------------------------------------------------------------------------
  // OffensiveLanguageMiddleware: the client address

  /** `s.split(',')[0]`: the text before the first comma, or all of `s`. */
  function FirstField(s: string): (r: string)
    ensures r <= s && ',' !in r
    ensures |r| < |s| ==> s[|r|] == ','
  {
    if |s| == 0 || s[0] == ',' then [] else [s[0]] + FirstField(s[1..])
  }

  /** The first field of a list is the text before its first separator. */
  lemma {:induction false} FirstFieldOfList(a: string, b: string)
    requires ',' !in a
    ensures FirstField(a + [','] + b) == a
  {
    if |a| > 0 {
      assert (a + [','] + b)[1..] == a[1..] + [','] + b;
      FirstFieldOfList(a[1..], b);
    }
  }

  /** `get_client_ip`: the first field of a non-empty `X-Forwarded-For`, else `REMOTE_ADDR`. */
  function ClientIp(req: Request): (ip: Option<string>)
    ensures req.xForwardedFor.Some? && req.xForwardedFor.value != [] ==>
              ip == Some(FirstField(req.xForwardedFor.value)) && ip.value <= req.xForwardedFor.value && ',' !in ip.value
    ensures (req.xForwardedFor.None? || req.xForwardedFor.value == []) ==> ip == req.remoteAddr
  {
    if req.xForwardedFor.Some? && req.xForwardedFor.value != [] then Some(FirstField(req.xForwardedFor.value))
    else req.remoteAddr
  }

  // ---------------------------------------------------------------------------
  // OffensiveLanguageMiddleware: the limiter

  const TimeWindow := 60
  const RequestLimit := 5
  const SubmitPrefix := "/chat/send-message/"

  function After(t: int): int -> bool
  {
    (x: int) => x > t
  }

  /** The timestamps still inside the window that ends at `now`. */
  function Recent(timestamps: seq<int>, now: int): (r: seq<int>)
    ensures forall t :: t in r <==> t in timestamps && t > now - TimeWindow
  {
    Seqs.Filter(timestamps, After(now - TimeWindow))
  }

  /** The requests the limiter looks at: message submissions. */
  predicate Limited(req: Request)
  {
    req.verb == "POST" && StartsWith(req.path, SubmitPrefix)
  }

  /** `records.get(ip, [])`. */
  function Stored(records: map<Option<string>, seq<int>>, ip: Option<string>): seq<int>
  {
    if ip in records then records[ip] else []
  }

  /** How a refusal is reported: 429 to script requests, 403 otherwise. */
  function Refusal(req: Request): Decision
  {
    if req.xRequestedWith == Some("XMLHttpRequest") then TooManyRequests else Forbidden
  }

  class RateLimiter {
    /** `request_records`: per client address, the timestamps of its accepted submissions. */
    var records: map<Option<string>, seq<int>>
    /** Per client address, the times of all its submissions, accepted or refused. */
    ghost var submitted: map<Option<string>, seq<int>>

    ghost function SubmittedBy(ip: Option<string>): seq<int>
      reads this
    {
      if ip in submitted then submitted[ip] else []
    }

    /**
     * Every stored list holds at most `RequestLimit` timestamps, and each
     * client's list is what `Replay` computes from its submissions.
     */
    ghost predicate Valid()
      reads this
    {
      && (forall ip :: ip in records ==> |records[ip]| <= RequestLimit)
      && Tracks(records, submitted)
    }

    constructor ()
      ensures Valid() && records == map[] && submitted == map[]
    {
      records := map[];
      submitted := map[];
    }

    /**
     * `__call__`: a submission from a client with `RequestLimit` or more
     * timestamps in the last `TimeWindow` seconds is refused and nothing is
     * stored; an accepted one replaces the client's list by its recent part
     * plus `now`. Other requests pass and change nothing. Over a client's
     * time-ordered submissions, at most `RequestLimit` accepted ones fall in
     * the window that ends at the latest.
     */
    method Call(req: Request, now: int) returns (d: Decision)
      requires Valid()
      modifies this
      ensures Valid()
      ensures !Limited(req) ==> d == Pass && records == old(records) && submitted == old(submitted)
      ensures Limited(req) ==>
        var ip := ClientIp(req);
        var recent := Recent(Stored(old(records), ip), now);
        && (if |recent| >= RequestLimit then d == Refusal(req) && records == old(records)
            else d == Pass && records == old(records)[ip := recent + [now]])
        && submitted == old(submitted)[ip := old(SubmittedBy(ip)) + [now]]
      ensures Limited(req) && NonDecreasing(SubmittedBy(ClientIp(req))) ==>
        |Recent(Replay(SubmittedBy(ClientIp(req))).1, now)| <= RequestLimit
    {
      d := Pass;
      if Limited(req) {
        var ip := ClientIp(req);
        var recent := Recent(Stored(records, ip), now);
        ghost var before, times := records, SubmittedBy(ip);
        if |recent| >= RequestLimit {
          d := Refusal(req);
        } else {
          records := records[ip := recent + [now]];
        }
        submitted := submitted[ip := times + [now]];
        TracksStep(before, old(submitted), ip, now);
        BoundAfter(times, now);
      }
    }
  }

  /** After a submission at `now`, at most `RequestLimit` accepted submissions fall in the window ending at `now`. */
  lemma BoundAfter(times: seq<int>, now: int)
    ensures NonDecreasing(times + [now]) ==> |Recent(Replay(times + [now]).1, now)| <= RequestLimit
  {
    if NonDecreasing(times + [now]) {
      AtMostLimitPerWindow(times + [now]);
      assert (times + [now])[|times|] == now;
    }
  }

  /** Each client's stored list is `Replay` of its submissions, and only submitting clients have one. */
  ghost predicate Tracks(records: map<Option<string>, seq<int>>, submitted: map<Option<string>, seq<int>>)
  {
    && records.Keys == submitted.Keys
    && forall ip :: ip in submitted ==> records[ip] == Replay(submitted[ip]).0
  }

  /** `Replay` over one more submission is one more limiter step. */
  lemma ReplaySnoc(times: seq<int>, now: int)
    ensures var prev := Replay(times);
      var recent := Recent(prev.0, now);
      Replay(times + [now]) == if |recent| >= RequestLimit then prev else (recent + [now], prev.1 + [now])
  {
    assert (times + [now])[..|times|] == times;
  }

  /** One submission keeps the stored lists in step with the submissions. */
  lemma TracksStep(records: map<Option<string>, seq<int>>, submitted: map<Option<string>, seq<int>>,
                   ip: Option<string>, now: int)
    requires Tracks(records, submitted)
    ensures var times := if ip in submitted then submitted[ip] else [];
      var recent := Recent(Stored(records, ip), now);
      Tracks(if |recent| >= RequestLimit then records else records[ip := recent + [now]],
             submitted[ip := times + [now]])
  {
    var times := if ip in submitted then submitted[ip] else [];
    assert Stored(records, ip) == Replay(times).0;
    ReplaySnoc(times, now);
  }

  // ---------------------------------------------------------------------------
  // What the limiter guarantees to one client over time

  /**
   * The limiter's list for one client after submissions at `times`, and the
   * times of the submissions it accepted.
   */
  function Replay(times: seq<int>): (r: (seq<int>, seq<int>))
  {
    if |times| == 0 then ([], [])
    else
      var prev := Replay(times[..|times| - 1]);
      var now := times[|times| - 1];
      var recent := Recent(prev.0, now);
      if |recent| >= RequestLimit then prev else (recent + [now], prev.1 + [now])
  }

  ghost predicate NonDecreasing(times: seq<int>)
  {
    forall i, j :: 0 <= i < j < |times| ==> times[i] <= times[j]
  }

  /** The window of one more timestamp. */
  lemma RecentSnoc(ts: seq<int>, x: int, t: int)
    ensures Recent(ts + [x], t) == Recent(ts, t) + (if x > t - TimeWindow then [x] else [])
  {
    Seqs.FilterAppend(ts, [x], After(t - TimeWindow));
    assert [x][1..] == [];
  }

  /**
   * From the last submission on, the stored list and the accepted times agree
   * on every later window, and the list never exceeds the limit.
   */
  lemma {:induction false} ReplayTracksAccepted(times: seq<int>)
    requires NonDecreasing(times) && |times| > 0
    ensures |Replay(times).0| <= RequestLimit
    ensures forall t :: t >= times[|times| - 1] ==> Recent(Replay(times).0, t) == Recent(Replay(times).1, t)
  {
    var n := |times|;
    var prefix := times[..n - 1];
    var now := times[n - 1];
    var prev := Replay(prefix);
    var recent := Recent(prev.0, now);
    if n > 1 {
      assert NonDecreasing(prefix);
      ReplayTracksAccepted(prefix);
      assert prefix[n - 2] <= now;
    }
    if |recent| < RequestLimit {
      forall t | t >= now
        ensures Recent(recent + [now], t) == Recent(prev.1 + [now], t)
      {
        AcceptedWindow(prev.0, prev.1, now, t);
      }
    }
  }

  /** After an accepted submission at `now`, later windows of the new list and of the accepted times agree. */
  lemma AcceptedWindow(stored: seq<int>, accepted: seq<int>, now: int, t: int)
    requires t >= now && Recent(stored, t) == Recent(accepted, t)
    ensures Recent(Recent(stored, now) + [now], t) == Recent(accepted + [now], t)
  {
    RecentSnoc(Recent(stored, now), now, t);
    RecentSnoc(accepted, now, t);
    Seqs.FilterFilter(stored, After(now - TimeWindow), After(t - TimeWindow));
  }

  /**
   * Sliding-window bound: right after any submission, at most `RequestLimit`
   * accepted submissions fall in the last `TimeWindow` seconds.
   */
  lemma AtMostLimitPerWindow(times: seq<int>)
    requires NonDecreasing(times) && |times| > 0
    ensures |Recent(Replay(times).1, times[|times| - 1])| <= RequestLimit
  {
    ReplayTracksAccepted(times);
  }

  // ---------------------------------------------------------------------------
  // RolePermissionMiddleware

  const ProtectedPaths := ["/management/", "/dashboard/"]
  const AllowedRoles := ["admin", "moderator"]

  /** `any(request.path.startswith(p) for p in PROTECTED_PATHS)`. */
  predicate IsProtected(path: string)
  {
    exists i :: 0 <= i < |ProtectedPaths| && StartsWith(path, ProtectedPaths[i])
  }

  /** Protected paths are refused to anonymous users and to users whose role is not listed. */
  function RoleGate(path: string, user: Requester): (d: Decision)
    ensures d != TooManyRequests
    ensures !IsProtected(path) ==> d == Pass
    ensures IsProtected(path) && user.Anonymous? ==> d == Forbidden
  {
    if IsProtected(path) then
      if user.Anonymous? then Forbidden
      else if user.role.None? || user.role.value !in AllowedRoles then Forbidden
      else Pass
    else Pass
  }

  /** The gate in plain terms: only an admin or a moderator reaches a management or dashboard path. */
  lemma RoleGateExact(path: string, user: Requester)
    ensures RoleGate(path, user) == Pass <==>
      (!StartsWith(path, "/management/") && !StartsWith(path, "/dashboard/"))
      || user == Authenticated(Some("admin")) || user == Authenticated(Some("moderator"))
  {
    if StartsWith(path, "/management/") {
      assert StartsWith(path, ProtectedPaths[0]);
    }
    if StartsWith(path, "/dashboard/") {
      assert StartsWith(path, ProtectedPaths[1]);
    }
  }
}
