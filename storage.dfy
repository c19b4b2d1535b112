/**
 * The two storage tiers behind the `httpx` service: the indexedDB wrapper
 * `ldb` and the browser's `localStorage`.
 *
 * Each tier keeps the JSON text of a response under the resource's URL and
 * its expiry timestamp under the URL with "_expiry" appended; here the two
 * kinds of key live in two maps of a `Tier`. The lookup
 * (`getFromStorage`/`getFromLocalStorage`) is a read-only decision over a
 * `Snapshot` of both tiers and the current time; the write (`saveData`/
 * `saveDataToLocalStorage`) updates the shared `Store` object in place and
 * falls back from the first tier to the second when a write throws.
 */
module Storage {
  import opened Wrappers
  import Crc32

  /** A server reply as the store keeps it: its HTTP status and the JSON text of its `data` field. */
  datatype Response = Response(status: int, dataJson: seq<Crc32.CodeUnit>)

  /**
   * What a lookup hands to its callback: an `ldb` entry is JSON-parsed back
   * into the response object, a `localStorage` entry is handed over as the
   * raw JSON text of the response.
   */
  datatype Stored = Parsed(response: Response) | Raw(response: Response)

  /** One tier: the entry stored under `url` and the expiry stored under `url + "_expiry"`. */
  datatype Tier = Tier(data: map<string, Response>, expiry: map<string, int>)

  /**
   * Both tiers as a lookup sees them. `ldbOn` is the service's flag, fixed
   * when the service starts; `hasStorage` says whether `window.Storage`
   * exists.
   */
  datatype Snapshot = Snapshot(ldbOn: bool, ldb: Tier, hasStorage: bool, local: Tier)

  /** The two arguments of the lookup's callback: the stored data (or null) and whether it is still valid. */
  datatype Answer = Answer(data: Option<Stored>, valid: bool)

  /** Which of the two writes of a tier throws, if any. */
  datatype Fault = NoFault | ThrowsOnData | ThrowsOnExpiry

  /**
   * `getFromStorage`. `None` means the callback is never called: neither
   * tier has the entry and there is no Web Storage, so the final test of the
   * bare global `Storage` throws a ReferenceError instead.
   */
  function GetFromStorage(s: Snapshot, url: string, validnessRequired: bool, now: int): (a: Option<Answer>)
    ensures a.Some? && a.value.valid ==> a.value.data.Some?
    ensures s.hasStorage ==> a.Some?
    decreases if validnessRequired then 1 else 0, 1
  {
    if s.ldbOn then
      if url in s.ldb.expiry then
        var valid := s.ldb.expiry[url] > now;
        if !validnessRequired || valid then
          if url in s.ldb.data then Some(Answer(Some(Parsed(s.ldb.data[url])), valid))
          else GetFromLocalStorage(s, url, validnessRequired, now)
        else GetFromLocalStorage(s, url, validnessRequired, now)
      else GetFromLocalStorage(s, url, validnessRequired, now)
    else GetFromLocalStorage(s, url, validnessRequired, now)
  }

  /**
   * `getFromLocalStorage`: on a miss with validity required, the whole
   * lookup runs once more without it. `None` stands for the ReferenceError
   * the bare `Storage` raises when Web Storage is missing.
   */
  function GetFromLocalStorage(s: Snapshot, url: string, validnessRequired: bool, now: int): (a: Option<Answer>)
    ensures a.Some? && a.value.valid ==> a.value.data.Some?
    ensures s.hasStorage ==> a.Some?
    decreases if validnessRequired then 1 else 0, 0
  {
    if s.hasStorage && url in s.local.data then
      Some(Answer(Some(Raw(s.local.data[url])), url in s.local.expiry && s.local.expiry[url] > now))
    else if validnessRequired then
      GetFromStorage(s, url, false, now)
    else if s.hasStorage then
      Some(Answer(None, false))
    else
      None
  }

  /** The `ldb` entry for `url` exists and has not expired at `now`. */
  predicate FreshInLdb(s: Snapshot, url: string, now: int) {
    s.ldbOn && url in s.ldb.data && url in s.ldb.expiry && s.ldb.expiry[url] > now
  }

  /**
   * The outcome of a lookup with validity required, written as one decision
   * list instead of two mutually recursive functions: a fresh `ldb` entry,
   * else any `localStorage` entry, else a stale `ldb` entry, else nothing.
   */
  function Lookup(s: Snapshot, url: string, now: int): Option<Answer> {
    if FreshInLdb(s, url, now) then
      Some(Answer(Some(Parsed(s.ldb.data[url])), true))
    else if s.hasStorage && url in s.local.data then
      Some(Answer(Some(Raw(s.local.data[url])), url in s.local.expiry && s.local.expiry[url] > now))
    else if s.ldbOn && url in s.ldb.data && url in s.ldb.expiry then
      Some(Answer(Some(Parsed(s.ldb.data[url])), false))
    else if s.hasStorage then
      Some(Answer(None, false))
    else
      None
  }

  /** The lookup `vm.get` makes (validity required) is the decision list `Lookup`. */
  lemma GetFromStorageIsLookup(s: Snapshot, url: string, now: int)
    ensures GetFromStorage(s, url, true, now) == Lookup(s, url, now)
  {
    if !FreshInLdb(s, url, now) {
      assert GetFromStorage(s, url, true, now) == GetFromLocalStorage(s, url, true, now);
      if !(s.hasStorage && url in s.local.data) {
        assert GetFromLocalStorage(s, url, true, now) == GetFromStorage(s, url, false, now);
      }
    }
  }

  /** An answer reported valid is an entry whose own expiry lies after `now`, in one tier or the other. */
  lemma ValidMeansUnexpired(s: Snapshot, url: string, now: int)
    requires GetFromStorage(s, url, true, now).Some? && GetFromStorage(s, url, true, now).value.valid
    ensures var d := GetFromStorage(s, url, true, now).value.data;
      (FreshInLdb(s, url, now) && d == Some(Parsed(s.ldb.data[url])))
      || (s.hasStorage && url in s.local.data && url in s.local.expiry && s.local.expiry[url] > now
          && d == Some(Raw(s.local.data[url])))
  {
    GetFromStorageIsLookup(s, url, now);
  }

  /** With `localStorage` present the callback is always called; with neither tier the lookup throws. */
  lemma CallbackCalled(s: Snapshot, url: string, now: int)
    ensures s.hasStorage ==> GetFromStorage(s, url, true, now).Some?
    ensures !s.ldbOn && !s.hasStorage ==> GetFromStorage(s, url, true, now) == None
  {
    GetFromStorageIsLookup(s, url, now);
  }

  /** A miss in both tiers ends, after the retry without validity, in `(null, false)`. */
  lemma MissGivesNull(s: Snapshot, url: string, now: int)
    requires s.hasStorage && url !in s.local.data
    requires !s.ldbOn || url !in s.ldb.data || url !in s.ldb.expiry
    ensures GetFromStorage(s, url, true, now) == Some(Answer(None, false))
  {
    GetFromStorageIsLookup(s, url, now);
  }

  /**
   * An expired `ldb` entry is shadowed by any `localStorage` entry, even an
   * expired one, and is handed over (as not valid) only when
   * `localStorage` has nothing.
   */
  lemma StaleLdbEntry(s: Snapshot, url: string, now: int)
    requires s.ldbOn && url in s.ldb.data && url in s.ldb.expiry && s.ldb.expiry[url] <= now
    ensures s.hasStorage && url in s.local.data ==>
      GetFromStorage(s, url, true, now).value.data == Some(Raw(s.local.data[url]))
    ensures !(s.hasStorage && url in s.local.data) ==>
      GetFromStorage(s, url, true, now) == Some(Answer(Some(Parsed(s.ldb.data[url])), false))
  {
    GetFromStorageIsLookup(s, url, now);
  }

  /** The two writes of one tier, stopping at the first that throws. */
  function WriteTier(t: Tier, url: string, r: Response, expiry: int, fault: Fault): (w: Tier)
    ensures fault != ThrowsOnData ==> url in w.data && w.data[url] == r
    ensures fault == NoFault ==> url in w.expiry && w.expiry[url] == expiry
    ensures fault == ThrowsOnData ==> w == t
    ensures fault == ThrowsOnExpiry ==> w.expiry == t.expiry
    ensures forall u :: u != url ==> (u in w.data <==> u in t.data) && (u in t.data ==> w.data[u] == t.data[u])
    ensures forall u :: u != url ==> (u in w.expiry <==> u in t.expiry) && (u in t.expiry ==> w.expiry[u] == t.expiry[u])
  {
    match fault
    case NoFault => Tier(t.data[url := r], t.expiry[url := expiry])
    case ThrowsOnData => t
    case ThrowsOnExpiry => t.(data := t.data[url := r])
  }

  /** `saveDataToLocalStorage` as a function of the snapshot: without `localStorage` the first write throws. */
  function SavedToLocal(s: Snapshot, url: string, r: Response, expiry: int, localFault: Fault): (s': Snapshot)
    ensures s'.ldbOn == s.ldbOn && s'.ldb == s.ldb && s'.hasStorage == s.hasStorage
    ensures !s.hasStorage ==> s'.local == s.local
  {
    if s.hasStorage then s.(local := WriteTier(s.local, url, r, expiry, localFault)) else s
  }

  /** `saveData` as a function of the snapshot: `ldb` first, `localStorage` when `ldb` is off or throws. */
  function Saved(s: Snapshot, url: string, r: Response, expiry: int, ldbFault: Fault, localFault: Fault): (s': Snapshot)
    ensures s'.ldbOn == s.ldbOn && s'.hasStorage == s.hasStorage
    ensures !s.ldbOn ==> s'.ldb == s.ldb
    ensures s.ldbOn && ldbFault == NoFault ==> s'.local == s.local
    ensures s.ldbOn && ldbFault == ThrowsOnData ==> s'.ldb == s.ldb
  {
    if s.ldbOn then
      var afterLdb := s.(ldb := WriteTier(s.ldb, url, r, expiry, ldbFault));
      if ldbFault == NoFault then afterLdb else SavedToLocal(afterLdb, url, r, expiry, localFault)
    else
      SavedToLocal(s, url, r, expiry, localFault)
  }

  /** A write that completes in the first tier that is on makes the next lookup before `expiry` a valid hit. */
  lemma SaveThenHit(s: Snapshot, url: string, r: Response, expiry: int, ldbFault: Fault, localFault: Fault, now: int)
    requires expiry > now
    requires if s.ldbOn then ldbFault == NoFault else s.hasStorage && localFault == NoFault
    ensures GetFromStorage(Saved(s, url, r, expiry, ldbFault, localFault), url, true, now)
      == Some(Answer(Some(if s.ldbOn then Parsed(r) else Raw(r)), true))
  {
    GetFromStorageIsLookup(Saved(s, url, r, expiry, ldbFault, localFault), url, now);
  }

  /**
   * A write whose expiry is not after `now` (the default lifetime 0 gives
   * expiry = time of the write) is never a valid hit through
   * `localStorage`: the next lookup hands it over as the raw text, not valid.
   */
  lemma SaveWithoutLifetimeIsStale(s: Snapshot, url: string, r: Response, expiry: int, localFault: Fault, now: int)
    requires !s.ldbOn && s.hasStorage && localFault == NoFault && expiry <= now
    ensures GetFromStorage(Saved(s, url, r, expiry, NoFault, localFault), url, true, now)
      == Some(Answer(Some(Raw(r)), false))
  {
    GetFromStorageIsLookup(Saved(s, url, r, expiry, NoFault, localFault), url, now);
  }

  /**
   * A complete `ldb` write with no lifetime does not stop an older, still
   * unexpired `localStorage` entry (left by an earlier write whose `ldb`
   * half threw) from being served as a valid hit.
   */
  lemma OlderLocalEntryWins(s: Snapshot, url: string, r: Response, expiry: int, localFault: Fault, now: int)
    requires s.ldbOn && s.hasStorage && expiry <= now
    requires url in s.local.data && url in s.local.expiry && s.local.expiry[url] > now
    ensures GetFromStorage(Saved(s, url, r, expiry, NoFault, localFault), url, true, now)
      == Some(Answer(Some(Raw(s.local.data[url])), true))
  {
    GetFromStorageIsLookup(Saved(s, url, r, expiry, NoFault, localFault), url, now);
  }

  /** A write under `url` changes no lookup of any other URL. */
  lemma SaveKeepsOtherUrls(s: Snapshot, url: string, r: Response, expiry: int, ldbFault: Fault, localFault: Fault,
                           other: string, now: int)
    requires other != url
    ensures GetFromStorage(Saved(s, url, r, expiry, ldbFault, localFault), other, true, now)
      == GetFromStorage(s, other, true, now)
  {
    var s' := Saved(s, url, r, expiry, ldbFault, localFault);
    GetFromStorageIsLookup(s, other, now);
    GetFromStorageIsLookup(s', other, now);
    assert s'.ldbOn == s.ldbOn && s'.hasStorage == s.hasStorage;
    assert other in s'.ldb.data <==> other in s.ldb.data;
    assert other in s'.ldb.expiry <==> other in s.ldb.expiry;
    assert other in s'.local.data <==> other in s.local.data;
    assert other in s'.local.expiry <==> other in s.local.expiry;
  }

  /**
   * The stores the whole service shares. The service picks `ldbOn` once at
   * start-up; `saveData` reassigns the tiers in place.
   */
  class Store {
    const ldbOn: bool
    const hasStorage: bool
    var ldb: Tier
    var local: Tier

    /**
     * The service at start-up: both tiers persist across page loads, so they
     * hold whatever earlier sessions saved.
     */
    constructor (ldbOn: bool, ldb: Tier, hasStorage: bool, local: Tier)
      ensures Snap() == Snapshot(ldbOn, ldb, hasStorage, local)
    {
      this.ldbOn := ldbOn;
      this.hasStorage := hasStorage;
      this.ldb := ldb;
      this.local := local;
    }

    function Snap(): Snapshot
      reads this
    {
      Snapshot(ldbOn, ldb, hasStorage, local)
    }

    /**
     * `saveData`: the two `ldb` writes, and on a throw (or with `ldb` off)
     * the two `localStorage` writes. No exception leaves the method.
     */
    method SaveData(url: string, r: Response, expiry: int, ldbFault: Fault, localFault: Fault)
      modifies this
      ensures Snap() == Saved(old(Snap()), url, r, expiry, ldbFault, localFault)
      ensures ldbOn && ldbFault == NoFault ==> local == old(local)
      ensures !ldbOn ==> ldb == old(ldb)
    {
      if ldbOn {
        match ldbFault {
          case NoFault =>
            ldb := ldb.(data := ldb.data[url := r]);
            ldb := ldb.(expiry := ldb.expiry[url := expiry]);
          case ThrowsOnData =>
            SaveDataToLocalStorage(url, r, expiry, localFault);
          case ThrowsOnExpiry =>
            ldb := ldb.(data := ldb.data[url := r]);
            SaveDataToLocalStorage(url, r, expiry, localFault);
        }
      } else {
        SaveDataToLocalStorage(url, r, expiry, localFault);
      }
    }

    /** `saveDataToLocalStorage`: the data write, then the expiry write; a throw ends it, after a log line. */
    method SaveDataToLocalStorage(url: string, r: Response, expiry: int, localFault: Fault)
      modifies this
      ensures Snap() == SavedToLocal(old(Snap()), url, r, expiry, localFault)
      ensures ldb == old(ldb)
    {
      if hasStorage && localFault != ThrowsOnData {
        local := local.(data := local.data[url := r]);
        if localFault == NoFault {
          local := local.(expiry := local.expiry[url := expiry]);
        }
      }
    }
  }
}
