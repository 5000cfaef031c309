/** The RDAP cache: answers for 24 hours, retries after one hour, and one background fetch
    per address at a time.  Times are nanoseconds on one monotone clock. */
module Rdap {

  const HOUR: nat := 3_600_000_000_000
  const DAY: nat := 24 * HOUR

  datatype Metadata = Metadata(operator: string, asn: string, network: string)

  const NONE := Metadata("", "", "")

  datatype Entry = Entry(metadata: Metadata, expires: int)

  /** What the fetch returns: an error always comes with empty metadata. */
  datatype Fetch = Fetched(metadata: Metadata) | Failed

  function Result(f: Fetch): Metadata {
    match f
    case Fetched(m) => m
    case Failed => NONE
  }

  function Ttl(f: Fetch): nat {
    if f.Failed? then HOUR else DAY
  }

  predicate Fresh(entries: map<string, Entry>, ip: string, now: int) {
    ip in entries && now < entries[ip].expires
  }

  function Answer(entries: map<string, Entry>, isPublic: bool, ip: string, now: int): Metadata {
    if isPublic && Fresh(entries, ip, now) then entries[ip].metadata else NONE
  }

  /** Whether a lookup launches a background fetch. */
  predicate Launches(entries: map<string, Entry>, inFlight: set<string>, isPublic: bool, ip: string, now: int) {
    isPublic && !Fresh(entries, ip, now) && ip !in inFlight
  }

  function Stored(entries: map<string, Entry>, ip: string, fetch: Fetch, now: int): map<string, Entry> {
    entries[ip := Entry(Result(fetch), now + Ttl(fetch))]
  }

  class IspCache {
    var entries: map<string, Entry>
    var inFlight: set<string>

    constructor ()
      ensures entries == map[] && inFlight == {}
    {
      entries, inFlight := map[], {};
    }

    /** A lookup never blocks: `now` was read before the lock was taken.  `started` tells
        whether a background fetch was launched. */
    method Lookup(ip: string, isPublic: bool, now: int) returns (answer: Metadata, started: bool)
      modifies this`inFlight
      ensures entries == old(entries)
      ensures answer == Answer(entries, isPublic, ip, now)
      ensures started <==> Launches(entries, old(inFlight), isPublic, ip, now)
      ensures inFlight == if started then old(inFlight) + {ip} else old(inFlight)
    {
      started := false;
      if !isPublic {
        return NONE, false;
      }
      if ip in entries && now < entries[ip].expires {
        return entries[ip].metadata, false;
      }
      if ip !in inFlight {
        inFlight := inFlight + {ip};
        started := true;
      }
      answer := NONE;
    }

    /** The end of a background fetch. */
    method Store(ip: string, fetch: Fetch, now: int)
      modifies this
      ensures entries == Stored(old(entries), ip, fetch, now)
      ensures inFlight == old(inFlight) - {ip}
    {
      var ttl := DAY;
      if fetch.Failed? {
        ttl := HOUR;
      }
      entries := entries[ip := Entry(Result(fetch), now + ttl)];
      inFlight := inFlight - {ip};
    }
  }
}
