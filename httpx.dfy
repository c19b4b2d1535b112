/**
 * `vm.get` of the `httpx` service: one logical fetch that first asks the
 * two-tier store for a valid entry and otherwise requests every candidate
 * URL at once, committing exactly one outcome through a deferred promise.
 *
 * The requests complete in any order on a single-threaded event loop; each
 * completion is one atomic call of `Fetch.OnSuccess` or `Fetch.OnError`, so
 * an arbitrary sequence of such calls stands for any interleaving. A
 * timeout or a cancellation is one more failed completion.
 */
module Httpx {
  import opened Wrappers
  import opened Storage
  import Crc32

  /** Requests to URLs containing this host are sent with credentials. */
  const CredentialHost: string := "bris-cdn.cf"

  /** The status that means "no change: use the stored data". */
  const NoContent: int := 204

  /** The name of the header carrying the checksum of the stored data. */
  const ContentHashHeader: string := "Content-Hash"

  /** `JSON.stringify(null)`: the text "null" as UTF-16 code units. */
  const NullJson: seq<Crc32.CodeUnit> := [0x6e, 0x75, 0x6c, 0x6c]

  /** The caller's `alt_urls` option: left out, a single string, or a list. */
  datatype AltUrls = Absent | Single(url: string) | List(urls: seq<string>)

  /** The alternate URLs in order. */
  function Alternates(alt: AltUrls): seq<string> {
    match alt
    case Absent => []
    case Single(u) => [u]
    case List(us) => us
  }

  /** The option after a single string has been wrapped into a one-element list. */
  function PreparedAltUrls(alt: AltUrls): (p: AltUrls)
    ensures Alternates(p) == Alternates(alt)
    ensures !p.Single?
    ensures !alt.Single? ==> p == alt
  {
    match alt
    case Single(u) => List([u])
    case _ => alt
  }

  /**
   * The candidate URLs of one call: the alternates in order, then `url`.
   * The first of them is the key under which the resource is read and
   * written.
   */
  function CandidateUrls(url: string, alt: AltUrls): (urls: seq<string>)
    ensures |urls| == |Alternates(alt)| + 1
    ensures urls[|urls| - 1] == url
    ensures urls[0] == if Alternates(alt) == [] then url else Alternates(alt)[0]
    ensures forall j :: 0 <= j < |Alternates(alt)| ==> urls[j] == Alternates(alt)[j]
  {
    Alternates(alt) + [url]
  }

  /** `String.prototype.includes`: `sub` occurs in `s` at some position. */
  function Includes(s: string, sub: string): (b: bool)
    ensures b ==> |sub| <= |s|
    decreases |s|
  {
    if |sub| > |s| then false
    else if s[..|sub|] == sub then true
    else Includes(s[1..], sub)
  }

  /** `sub` occurs in `s` starting at position `k`. */
  predicate OccursAt(s: string, sub: string, k: nat) {
    k + |sub| <= |s| && s[k..k + |sub|] == sub
  }

  /** `Includes` finds exactly the positions where `sub` occurs. */
  lemma {:induction false} IncludesIff(s: string, sub: string)
    ensures Includes(s, sub) <==> exists k: nat :: OccursAt(s, sub, k)
    decreases |s|
  {
    if |sub| > |s| {
    } else if s[..|sub|] == sub {
      assert OccursAt(s, sub, 0);
    } else {
      IncludesIff(s[1..], sub);
      if Includes(s, sub) {
        var k: nat :| OccursAt(s[1..], sub, k);
        SliceOfTail(s, k, |sub|);
        assert OccursAt(s, sub, k + 1);
      } else {
        forall k: nat | k + |sub| <= |s|
          ensures !OccursAt(s, sub, k)
        {
          if k > 0 {
            SliceOfTail(s, k - 1, |sub|);
            assert !OccursAt(s[1..], sub, k - 1);
          }
        }
      }
    }
  }

  /** A slice of the tail of `s` is the slice of `s` one position further on. */
  lemma SliceOfTail(s: string, k: nat, n: nat)
    requires k + 1 + n <= |s|
    ensures s[1..][k..k + n] == s[k + 1..k + 1 + n]
  {
    forall j | k <= j < k + n
      ensures s[1..][j] == s[j + 1]
    {
    }
  }

  /** Whether a request to `url` carries credentials. */
  function WithCredentials(url: string): bool {
    Includes(url, CredentialHost)
  }

  /**
   * The text whose checksum is sent in the `Content-Hash` header: the JSON
   * text of the stored response's `data`, or "null" when nothing is stored.
   * A raw `localStorage` entry is read as the response it encodes.
   */
  function ContentHashInput(stored: Option<Stored>): (t: seq<Crc32.CodeUnit>)
    ensures stored.Some? ==> t == stored.value.response.dataJson
    ensures stored.None? ==> t == NullJson
  {
    match stored
    case None => NullJson
    case Some(Parsed(r)) => r.dataJson
    case Some(Raw(r)) => r.dataJson
  }

  /** One request as `$http.get` receives it. */
  datatype Request = Request(url: string, withCredentials: bool, contentHash: nat)

  /** The request for `url` carrying the checksum `hash`. */
  function RequestFor(url: string, hash: nat): Request {
    Request(url, WithCredentials(url), hash)
  }

  /** What the promise of a call is fulfilled with. */
  datatype Delivered = FromStore(stored: Option<Stored>) | FromServer(response: Response)

  /** The state of the deferred promise: it settles at most once. */
  datatype Outcome = Pending | Fulfilled(value: Delivered) | Rejected(error: Response)

  /** Where one issued request stands. */
  datatype Status = InFlight | Succeeded | Failed

  /** How many entries of `s` are `x`. */
  function Count(s: seq<Status>, x: Status): (n: nat)
    ensures n <= |s|
  {
    if s == [] then 0 else (if s[0] == x then 1 else 0) + Count(s[1..], x)
  }

  /** Changing one entry to `x` adds one `x` and removes one of what was there. */
  lemma {:induction false} CountUpdate(s: seq<Status>, i: nat, x: Status, y: Status)
    requires i < |s| && s[i] != x
    ensures Count(s[i := x], x) == Count(s, x) + 1
    ensures y != x && y != s[i] ==> Count(s[i := x], y) == Count(s, y)
  {
    if i > 0 {
      assert s[i := x][1..] == s[1..][i - 1 := x];
      CountUpdate(s[1..], i - 1, x, y);
    }
  }

  /** Every entry is `x` exactly when the count of `x` is the length. */
  lemma {:induction false} CountFull(s: seq<Status>, x: Status)
    ensures Count(s, x) == |s| <==> forall j :: 0 <= j < |s| ==> s[j] == x
  {
    if s != [] {
      CountFull(s[1..], x);
      if Count(s, x) == |s| {
        forall j | 0 <= j < |s|
          ensures s[j] == x
        {
          if j > 0 {
            assert s[j] == s[1..][j - 1];
          }
        }
      } else {
        if s[0] == x {
          var j :| 0 <= j < |s[1..]| && s[1..][j] != x;
          assert s[j + 1] != x;
        }
      }
    }
  }

  /** Some entry is `x` exactly when the count of `x` is positive. */
  lemma {:induction false} CountPositive(s: seq<Status>, x: Status)
    ensures Count(s, x) > 0 <==> exists j :: 0 <= j < |s| && s[j] == x
  {
    if s != [] {
      CountPositive(s[1..], x);
      if s[0] != x && Count(s, x) > 0 {
        var j :| 0 <= j < |s[1..]| && s[1..][j] == x;
        assert s[j + 1] == x;
      }
      if s[0] != x && Count(s, x) == 0 {
        forall j | 0 <= j < |s|
          ensures s[j] != x
        {
          if j > 0 {
            assert s[j] == s[1..][j - 1];
          }
        }
      }
    }
  }

  /** A list of `n` requests all in flight. */
  function AllInFlight(n: nat): (s: seq<Status>)
    ensures |s| == n && forall j :: 0 <= j < n ==> s[j] == InFlight
    ensures Count(s, Failed) == 0 && Count(s, Succeeded) == 0
  {
    if n == 0 then [] else [InFlight] + AllInFlight(n - 1)
  }

  /** The caller's options object, which `vm.get` updates in place. */
  class Options {
    var lifetime: Option<int>
    var altUrls: AltUrls
    var headers: map<string, nat>
    var withCredentials: bool

    constructor (lifetime: Option<int>, altUrls: AltUrls)
      ensures this.lifetime == lifetime && this.altUrls == altUrls
      ensures headers == map[] && !withCredentials
    {
      this.lifetime := lifetime;
      this.altUrls := altUrls;
      headers := map[];
      withCredentials := false;
    }
  }

  /**
   * One call of `vm.get`: the closure state `resolved` and `errors`, the
   * deferred promise's `outcome`, the stored data found by the lookup, and
   * the requests issued.
   */
  class Fetch {
    const store: Store
    const urls: seq<string>
    const lifetime: int
    const stored: Option<Stored>
    var resolved: bool
    var errors: nat
    var outcome: Outcome
    var requests: seq<Request>
    ghost var status: seq<Status>

    ghost predicate Valid()
      reads this
    {
      && |urls| >= 1
      && |status| == |requests|
      && (requests == [] || |requests| == |urls|)
      && (forall j :: 0 <= j < |requests| ==> requests[j].url == urls[j])
      && errors == Count(status, Failed)
      && (resolved <==> outcome.Fulfilled?)
      && (outcome.Rejected? ==> requests != [] && errors == |urls| && stored == None)
      && (Count(status, Succeeded) > 0 ==> resolved)
      && (requests != [] && errors == |urls| ==> outcome != Pending)
    }

    /** Every issued request has completed. */
    ghost predicate Done()
      reads this
    {
      requests != [] && forall j :: 0 <= j < |status| ==> status[j] != InFlight
    }

    /**
     * The call up to the moment its promise is returned: the option
     * defaults, the candidate URLs, the lookup at time `now` and, unless it
     * was a valid hit, one request per candidate URL. A lookup that throws
     * for want of Web Storage (`None`) leaves the call pending with no
     * requests.
     */
    constructor (url: string, options: Options, store: Store, hasher: Crc32.Hasher, now: int)
      requires hasher.Valid()
      modifies options
      ensures Valid() && this.store == store
      ensures urls == CandidateUrls(url, old(options.altUrls))
      ensures options.altUrls == PreparedAltUrls(old(options.altUrls))
      ensures lifetime == (if old(options.lifetime).Some? then old(options.lifetime).value else 0)
      ensures options.lifetime == Some(lifetime)
      ensures var answer := GetFromStorage(store.Snap(), urls[0], true, now);
        && stored == (if answer.Some? then answer.value.data else None)
        && (answer.Some? && answer.value.valid ==>
              resolved && outcome == Fulfilled(FromStore(stored)) && requests == []
              && options.headers == old(options.headers) && options.withCredentials == old(options.withCredentials))
        && (answer.None? ==>
              !resolved && outcome == Pending && requests == []
              && options.headers == old(options.headers) && options.withCredentials == old(options.withCredentials))
        && (answer.Some? && !answer.value.valid ==>
              !resolved && outcome == Pending && errors == 0
              && options.headers == map[ContentHashHeader := Crc32.Crc(ContentHashInput(stored))]
              && options.withCredentials == WithCredentials(url)
              && |requests| == |urls|
              && (forall j :: 0 <= j < |urls| ==>
                    requests[j] == RequestFor(urls[j], Crc32.Crc(ContentHashInput(stored))))
              && forall j :: 0 <= j < |status| ==> status[j] == InFlight)
    {
      if options.lifetime.None? {
        options.lifetime := Some(0);
      }
      if options.altUrls.Single? {
        options.altUrls := List([options.altUrls.url]);
      }
      var candidates := CandidateUrls(url, options.altUrls);
      var answer := GetFromStorage(store.Snap(), candidates[0], true, now);
      this.store := store;
      urls := candidates;
      lifetime := options.lifetime.value;
      stored := if answer.Some? then answer.value.data else None;
      resolved := false;
      errors := 0;
      outcome := Pending;
      requests := [];
      status := [];
      new;
      if answer.Some? {
        if answer.value.valid {
          outcome := Fulfilled(FromStore(stored));
          resolved := true;
        } else {
          var hash := hasher.Checksum(ContentHashInput(stored));
          IssueRequests(options, hash);
        }
      }
    }

    /**
     * The header and the loop over the candidate URLs: each request takes
     * the credentials flag of its own URL, which is left in `options` after
     * the last one.
     */
    method IssueRequests(options: Options, hash: nat)
      requires |urls| >= 1 && requests == [] && status == []
      modifies this, options
      ensures resolved == old(resolved) && errors == old(errors) && outcome == old(outcome)
      ensures options.lifetime == old(options.lifetime) && options.altUrls == old(options.altUrls)
      ensures options.headers == map[ContentHashHeader := hash]
      ensures options.withCredentials == WithCredentials(urls[|urls| - 1])
      ensures |requests| == |urls| && forall j :: 0 <= j < |urls| ==> requests[j] == RequestFor(urls[j], hash)
      ensures status == AllInFlight(|urls|)
    {
      options.headers := map[ContentHashHeader := hash];
      var i := 0;
      while i < |urls|
        invariant 0 <= i <= |urls|
        invariant |requests| == i
        invariant forall j :: 0 <= j < i ==> requests[j] == RequestFor(urls[j], hash)
        invariant i > 0 ==> options.withCredentials == WithCredentials(urls[i - 1])
        invariant options.headers == map[ContentHashHeader := hash]
        invariant options.lifetime == old(options.lifetime) && options.altUrls == old(options.altUrls)
        invariant resolved == old(resolved) && errors == old(errors) && outcome == old(outcome)
      {
        options.withCredentials := WithCredentials(urls[i]);
        requests := requests + [RequestFor(urls[i], hash)];
        i := i + 1;
      }
      status := AllInFlight(|urls|);
    }

    /**
     * The success callback of request `i`, arriving at time `now`: the first
     * success settles the promise (a 204 with the stored data, anything
     * else with the response) and every success, late ones included, saves
     * the response under the first candidate URL.
     */
    method OnSuccess(i: nat, r: Response, now: int, ldbFault: Fault, localFault: Fault)
      requires Valid() && i < |requests| && status[i] == InFlight
      modifies this, store
      ensures Valid() && resolved
      ensures old(outcome) != Pending ==> outcome == old(outcome)
      ensures old(outcome) == Pending ==>
        outcome == Fulfilled(if r.status == NoContent then FromStore(stored) else FromServer(r))
      ensures errors == old(errors) && requests == old(requests)
      ensures status == old(status)[i := Succeeded]
      ensures store.Snap() == Saved(old(store.Snap()), urls[0], r, lifetime + now, ldbFault, localFault)
    {
      CountFull(status, Failed);
      if !resolved && r.status == NoContent {
        outcome := Fulfilled(FromStore(stored));
      } else if !resolved {
        outcome := Fulfilled(FromServer(r));
      }
      resolved := true;
      store.SaveData(urls[0], r, lifetime + now, ldbFault, localFault);
      CountUpdate(status, i, Succeeded, Failed);
      status := status[i := Succeeded];
    }

    /**
     * The error callback of request `i`: count the error and, once every
     * request has failed with nothing committed, fall back to the stored
     * data, or reject with this error when there is none.
     */
    method OnError(i: nat, err: Response)
      requires Valid() && i < |requests| && status[i] == InFlight
      modifies this
      ensures Valid()
      ensures errors == old(errors) + 1 && errors <= |urls|
      ensures requests == old(requests) && status == old(status)[i := Failed]
      ensures old(outcome) != Pending ==> outcome == old(outcome) && resolved == old(resolved)
      ensures old(outcome) == Pending && errors < |urls| ==> outcome == Pending
      ensures old(outcome) == Pending && errors == |urls| ==>
        outcome == if stored.Some? then Fulfilled(FromStore(stored)) else Rejected(err)
    {
      CountFull(status, Failed);
      CountUpdate(status, i, Failed, Succeeded);
      status := status[i := Failed];
      errors := errors + 1;
      if !resolved && AllFailed(errors, |urls|) {
        if stored.Some? {
          outcome := Fulfilled(FromStore(stored));
          resolved := true;
        } else {
          outcome := Rejected(err);
        }
      }
    }

    /** Once every issued request has completed, the promise has settled. */
    lemma DoneMeansSettled()
      requires Valid() && Done()
      ensures outcome != Pending
    {
      CountPositive(status, Succeeded);
      if Count(status, Succeeded) == 0 {
        CountFull(status, Failed);
      }
    }
  }

  /**
   * After a write with no lifetime that completed in the first tier that is
   * on (and with no `localStorage` entry for the URL to shadow an `ldb`
   * write), the next call's `Content-Hash` is the checksum of the written
   * response's data, whichever tier holds it.
   */
  lemma HeaderAfterSave(s: Snapshot, url: string, r: Response, expiry: int, ldbFault: Fault, localFault: Fault, now: int)
    requires expiry <= now
    requires if s.ldbOn then ldbFault == NoFault && !(s.hasStorage && url in s.local.data)
             else s.hasStorage && localFault == NoFault
    ensures var answer := GetFromStorage(Saved(s, url, r, expiry, ldbFault, localFault), url, true, now);
      answer.Some? && !answer.value.valid && Crc32.Crc(ContentHashInput(answer.value.data)) == Crc32.Crc(r.dataJson)
  {
    GetFromStorageIsLookup(Saved(s, url, r, expiry, ldbFault, localFault), url, now);
  }

  /**
   * A 204 reply is saved like any other success, replacing the stored
   * response: with no lifetime and no `localStorage` entry to shadow it,
   * the next call's stored data, which it falls back to when all its
   * requests fail, is that empty reply rather than the data it replaced.
   */
  lemma NoContentReplacesStoredData(s: Snapshot, url: string, r: Response, expiry: int, now: int)
    requires r.status == NoContent && s.ldbOn && expiry <= now
    requires !(s.hasStorage && url in s.local.data)
    ensures GetFromStorage(Saved(s, url, r, expiry, NoFault, NoFault), url, true, now)
      == Some(Answer(Some(Parsed(r)), false))
  {
    GetFromStorageIsLookup(Saved(s, url, r, expiry, NoFault, NoFault), url, now);
  }

  /**
   * The `Content-Hash` input as the service computes it: `stored_data.data`
   * is read as a property of whatever the lookup returned. A raw
   * `localStorage` entry is a string, whose `data` is undefined, so
   * `JSON.stringify` yields undefined and the checksum throws on its
   * `length`; `None` stands for that throw.
   */
  function ContentHashInputAsWritten(stored: Option<Stored>): Option<seq<Crc32.CodeUnit>> {
    match stored
    case None => Some(NullJson)
    case Some(Parsed(r)) => Some(r.dataJson)
    case Some(Raw(_)) => None
  }

  /**
   * As written, with `localStorage` as the only tier, the call after a save
   * with the default lifetime finds the entry expired, hands the raw text to
   * the header computation and throws: no request is issued, and since
   * nothing is ever saved again the resource can no longer be fetched.
   */
  lemma SecondCallThrowsAsWritten(s: Snapshot, url: string, r: Response, saveTime: int, now: int)
    requires !s.ldbOn && s.hasStorage && saveTime <= now
    ensures var answer := GetFromStorage(Saved(s, url, r, 0 + saveTime, NoFault, NoFault), url, true, now);
      answer.Some? && !answer.value.valid && ContentHashInputAsWritten(answer.value.data) == None
  {
    SaveWithoutLifetimeIsStale(s, url, r, 0 + saveTime, NoFault, now);
  }

  /** The same situation with the header computed by `ContentHashInput`: the checksum of the saved data. */
  lemma SecondCallHashesSavedData(s: Snapshot, url: string, r: Response, saveTime: int, now: int)
    requires !s.ldbOn && s.hasStorage && saveTime <= now
    ensures var answer := GetFromStorage(Saved(s, url, r, 0 + saveTime, NoFault, NoFault), url, true, now);
      answer.Some? && !answer.value.valid && ContentHashInput(answer.value.data) == r.dataJson
  {
    SaveWithoutLifetimeIsStale(s, url, r, 0 + saveTime, NoFault, now);
  }

  /**
   * `alt_urls` after lines 29-30 as written: the URL is pushed onto the
   * caller's own list, and the call's `urls` is that same list object.
   */
  function PushedAltUrls(url: string, alt: AltUrls): AltUrls {
    match alt
    case Absent => Absent
    case Single(u) => List([u, url])
    case List(us) => List(us + [url])
  }

  /**
   * As written, a second call with the same options object grows the list
   * the first call counts its errors against: the first call issued
   * |alternates| + 1 requests, but compares its error count with
   * |alternates| + 2, so when all its requests fail it never settles.
   */
  lemma ReusedOptionsNeverSettleAsWritten(us: seq<string>, url1: string, url2: string)
    ensures var issued := |CandidateUrls(url1, List(us))|;
      var target := |Alternates(PushedAltUrls(url2, PushedAltUrls(url1, List(us))))|;
      issued == |us| + 1 && forall errors: nat :: errors <= issued ==> !AllFailed(errors, target)
  {
  }

  /** The test of the error callback: the error count has reached the length of `urls`. */
  predicate AllFailed(errors: nat, length: nat) {
    errors == length
  }

  /**
   * With `urls` built as a fresh list (the model's `Fetch.urls`), the
   * options object after one call yields, for the next call, exactly the
   * caller's alternates followed by the new URL.
   */
  lemma ReusedOptionsKeepAlternates(alt: AltUrls, url1: string, url2: string)
    ensures CandidateUrls(url2, PreparedAltUrls(alt)) == Alternates(alt) + [url2]
    ensures PreparedAltUrls(PreparedAltUrls(alt)) == PreparedAltUrls(alt)
  {
  }
}
