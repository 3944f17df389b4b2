/** Per-address connection accounting (src/limiter.rs): a map of counts, updated
    in place when a permit is taken and when it is dropped. */
module Limiter {

  type u32 = n: int | 0 <= n <= 0xFFFF_FFFF

  type Ip = nat

  type Counts = map<Ip, u32>

  /** `entry(ip).or_insert(0)`, then the cap, then the increment. */
  function Acquire(counts: Counts, cap: u32, ip: Ip): (Counts, bool)
  {
    var before: u32 := if ip in counts then counts[ip] else 0;
    if before >= cap then (counts[ip := before], false) else (counts[ip := before + 1], true)
  }

  datatype Released = Released(counts: Counts, clean: bool)

  /** Dropping a permit; `clean` fails where the source would find no entry, or an
      entry at zero that the decrement would wrap. */
  function Release(counts: Counts, ip: Ip): Released
  {
    if ip !in counts then Released(counts, false)
    else if counts[ip] == 0 then Released(counts[ip := 0xFFFF_FFFF], false)
    else if counts[ip] == 1 then Released(counts - {ip}, true)
    else Released(counts[ip := counts[ip] - 1], true)
  }

  /** The counts are those of the live permits, and within the cap. */
  ghost predicate Accounts(counts: Counts, cap: u32, live: multiset<Ip>)
  {
    forall ip: Ip :: Balanced(counts, cap, live, ip)
  }

  ghost predicate Balanced(counts: Counts, cap: u32, live: multiset<Ip>, ip: Ip)
  {
    && (ip in counts ==> counts[ip] as int == live[ip] && counts[ip] <= cap)
    && (ip !in counts ==> live[ip] == 0)
  }

  /** No entry outlives the last permit of its address. */
  ghost predicate Pruned(counts: Counts)
  {
    forall ip :: ip in counts ==> counts[ip] > 0
  }

  lemma AcquireAccounts(counts: Counts, cap: u32, live: multiset<Ip>, ip: Ip)
    requires Accounts(counts, cap, live)
    ensures var (after, granted) := Acquire(counts, cap, ip);
            && Accounts(after, cap, if granted then live + multiset{ip} else live)
            && (granted <==> live[ip] < cap)
            && (Pruned(counts) && cap > 0 ==> Pruned(after))
  {
    var (after, granted) := Acquire(counts, cap, ip);
    var now := if granted then live + multiset{ip} else live;
    assert Balanced(counts, cap, live, ip);
    forall other: Ip ensures Balanced(after, cap, now, other) {
      assert Balanced(counts, cap, live, other);
    }
  }

  lemma ReleaseAccounts(counts: Counts, cap: u32, live: multiset<Ip>, ip: Ip)
    requires Accounts(counts, cap, live) && ip in live
    ensures var after := Release(counts, ip);
            && after.clean
            && Accounts(after.counts, cap, live - multiset{ip})
            && (Pruned(counts) ==> Pruned(after.counts))
  {
    var after := Release(counts, ip).counts;
    assert Balanced(counts, cap, live, ip);
    forall other: Ip ensures Balanced(after, cap, live - multiset{ip}, other) {
      assert Balanced(counts, cap, live, other);
    }
  }

  /** Taking a permit and dropping it again leaves no trace. */
  lemma AcquireReleaseIdentity(counts: Counts, cap: u32, ip: Ip)
    requires Pruned(counts)
    ensures var (after, granted) := Acquire(counts, cap, ip);
            granted ==> Release(after, ip) == Released(counts, true)
  {
  }

  /** With a cap of zero a refusal leaves an entry no permit will ever remove;
      with any other cap a refusal changes nothing. */
  lemma RefusalLeavesNoTrace(counts: Counts, cap: u32, ip: Ip)
    requires Pruned(counts)
    requires !Acquire(counts, cap, ip).1
    ensures Acquire(counts, cap, ip).0 == counts <==> cap > 0 || ip in counts
    ensures Pruned(Acquire(counts, cap, ip).0) <==> cap > 0 || ip in counts
  {
  }

  datatype Permit = Permit(ip: Ip)

  datatype Attempt = Granted(permit: Permit) | Denied

  class PerIpLimiter {
    var counts: Counts
    const cap: u32
    /** The permits handed out and not yet dropped. */
    ghost var live: multiset<Ip>

    ghost predicate Valid()
      reads this
    {
      Accounts(counts, cap, live) && (cap > 0 ==> Pruned(counts))
    }

    constructor (cap: u32)
      ensures Valid() && this.cap == cap && counts == map[] && live == multiset{}
    {
      this.cap := cap;
      counts := map[];
      live := multiset{};
    }

    method TryAcquire(ip: Ip) returns (attempt: Attempt)
      requires Valid()
      modifies this
      ensures Valid()
      ensures (counts, attempt.Granted?) == Acquire(old(counts), cap, ip)
      ensures attempt == if old(live)[ip] < cap then Granted(Permit(ip)) else Denied
      ensures live == if attempt.Granted? then old(live) + multiset{ip} else old(live)
    {
      AcquireAccounts(counts, cap, live, ip);
      var count: u32 := 0;
      if ip in counts {
        count := counts[ip];
      } else {
        counts := counts[ip := 0];
      }
      if count >= cap {
        assert old(counts)[ip := count] == counts;
        return Denied;
      }
      counts := counts[ip := count + 1];
      assert old(counts)[ip := count + 1] == counts;
      live := live + multiset{ip};
      attempt := Granted(Permit(ip));
    }

    /** Dropping a permit that was granted always finds its entry. */
    method Drop(permit: Permit)
      requires Valid() && permit.ip in live
      modifies this
      ensures Valid()
      ensures Released(counts, true) == Release(old(counts), permit.ip)
      ensures live == old(live) - multiset{permit.ip}
    {
      ReleaseAccounts(counts, cap, live, permit.ip);
      var ip := permit.ip;
      live := live - multiset{ip};
      if ip !in counts {
        return;
      }
      counts := counts[ip := counts[ip] - 1];
      if counts[ip] == 0 {
        counts := counts - {ip};
        assert counts == old(counts) - {ip};
      }
    }
  }
}
