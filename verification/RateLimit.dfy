/** The login rate limiter: one counting window per client address, and a janitor that
    drops expired windows.  Times are integers on one monotone clock. */
module RateLimit {

  datatype Window = Window(count: nat, resetAt: int)

  /** One POST of a client: reuse its window unless the reset time has passed. */
  function Count(m: map<string, Window>, ip: string, now: int, window: nat): Window {
    if ip in m && now <= m[ip].resetAt then Window(m[ip].count + 1, m[ip].resetAt)
    else Window(1, now + window)
  }

  function Purge(m: map<string, Window>, now: int): map<string, Window> {
    map ip | ip in m && now <= m[ip].resetAt :: m[ip]
  }

  class Bucket {
    var count: nat
    var resetAt: int

    constructor (resetAt: int)
      ensures count == 0 && this.resetAt == resetAt
    {
      count := 0;
      this.resetAt := resetAt;
    }
  }

  datatype Reply = Next | TooManyRequests

  class LoginRateLimiter {
    var buckets: map<string, Bucket>
    const maxAttempts: int
    const window: nat

    /** No two addresses share a bucket. */
    ghost predicate Valid()
      reads this
    {
      forall i, j :: i in buckets && j in buckets && i != j ==> buckets[i] != buckets[j]
    }

    ghost function Image(): map<string, Window>
      reads this, buckets.Values
    {
      map ip | ip in buckets :: Window(buckets[ip].count, buckets[ip].resetAt)
    }

    constructor (maxAttempts: int, window: nat)
      ensures Valid() && Image() == map[]
      ensures this.maxAttempts == maxAttempts && this.window == window
    {
      buckets := map[];
      this.maxAttempts := maxAttempts;
      this.window := window;
    }

    /** The middleware: only POST requests are counted. */
    method Middleware(isPost: bool, ip: string, now: int) returns (reply: Reply)
      requires Valid()
      modifies this`buckets, buckets.Values
      ensures Valid() && fresh(buckets.Values - old(buckets.Values))
      ensures !isPost ==> reply == Next && Image() == old(Image())
      ensures isPost ==>
                var w := Count(old(Image()), ip, now, window);
                Image() == old(Image())[ip := w] && (reply == Next <==> w.count <= maxAttempts)
    {
      if !isPost {
        return Next;
      }
      if ip !in buckets || now > buckets[ip].resetAt {
        Open(ip, now);
      }
      var count := Increment(ip);
      reply := if count > maxAttempts then TooManyRequests else Next;
    }

    /** A new window for the address, still empty. */
    method Open(ip: string, now: int)
      requires Valid()
      modifies this`buckets
      ensures Valid() && fresh(buckets.Values - old(buckets.Values)) && ip in buckets && fresh(buckets[ip])
      ensures Image() == old(Image())[ip := Window(0, now + window)]
    {
      var bucket := new Bucket(now + window);
      buckets := buckets[ip := bucket];
    }

    method Increment(ip: string) returns (count: nat)
      requires Valid() && ip in buckets
      modifies buckets[ip]
      ensures Valid() && count == old(Image())[ip].count + 1
      ensures Image() == old(Image())[ip := old(Image())[ip].(count := count)]
    {
      var b := buckets[ip];
      b.count := b.count + 1;
      count := b.count;
    }

    /** One sweep of the janitor; `now` may have been read long before the lock was taken. */
    method Sweep(now: int)
      requires Valid()
      modifies this`buckets
      ensures Valid() && buckets.Values <= old(buckets.Values)
      ensures Image() == Purge(old(Image()), now)
    {
      var pending := buckets.Keys;
      while pending != {}
        invariant pending <= old(buckets.Keys) && buckets.Keys <= old(buckets.Keys)
        invariant forall ip :: ip in buckets ==> buckets[ip] == old(buckets)[ip]
        invariant forall ip :: ip in pending ==> ip in buckets
        invariant forall ip :: ip in old(buckets) && ip !in pending ==>
                    (ip in buckets <==> now <= old(buckets)[ip].resetAt)
        decreases |pending|
      {
        var ip :| ip in pending;
        if now > buckets[ip].resetAt {
          buckets := buckets - {ip};
        }
        pending := pending - {ip};
      }
    }
  }
}
