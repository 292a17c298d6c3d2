/** The `LoginAttempt` document: one immutable record of a login try. */
module LoginAttemptEntity {
  import opened Wrappers

  /**
   * `username` need not name an existing account. `attemptTime` is in integer
   * seconds; `failureReason` is null unless set.
   */
  datatype LoginAttempt = LoginAttempt(
    username: string,
    ipAddress: string,
    success: bool,
    attemptTime: int,
    userAgent: string,
    failureReason: Option<string>)

  /**
   * The four-argument constructor, run at time `now`: the given fields are
   * stored unchanged, the attempt is stamped `now`, no failure reason is set.
   */
  function NewAttempt(username: string, ipAddress: string, success: bool, userAgent: string, now: int): (a: LoginAttempt)
    ensures a.username == username && a.ipAddress == ipAddress
    ensures a.success == success && a.userAgent == userAgent
    ensures a.attemptTime == now
    ensures a.failureReason.None?
  {
    LoginAttempt(username, ipAddress, success, now, userAgent, None)
  }
}

/**
 * The `login_attempts` collection's queries, over the collection as the
 * sequence of attempts in insertion order. The time-window queries keep that
 * order; the derived `OrderByAttemptTimeDesc` queries sort newest first.
 */
module LoginAttemptRepository {
  import opened Seqs
  import opened LoginAttemptEntity

  /** Newest first: attempt times never increase along the sequence. */
  predicate NewestFirst(s: seq<LoginAttempt>) {
    forall i, j :: 0 <= i < j < |s| ==> s[i].attemptTime >= s[j].attemptTime
  }

  /** Inserts `a` into a newest-first sequence, after every attempt at least as new. */
  function InsertByTime(a: LoginAttempt, s: seq<LoginAttempt>): seq<LoginAttempt> {
    if s == [] || a.attemptTime >= s[0].attemptTime then [a] + s
    else [s[0]] + InsertByTime(a, s[1..])
  }

  /** Sorts newest first by insertion; attempts with equal times keep their insertion order. */
  function SortNewestFirst(s: seq<LoginAttempt>): seq<LoginAttempt> {
    if s == [] then [] else InsertByTime(s[0], SortNewestFirst(s[1..]))
  }

  /** Putting an attempt in front of a newest-first sequence whose head is no newer keeps it newest first. */
  lemma PrependNewest(x: LoginAttempt, s: seq<LoginAttempt>)
    requires NewestFirst(s) && (s == [] || s[0].attemptTime <= x.attemptTime)
    ensures NewestFirst([x] + s)
  {
    assert forall j :: 0 <= j < |s| ==> s[j].attemptTime <= x.attemptTime;
  }

  /**
   * Inserting into a newest-first sequence keeps it newest first and adds
   * exactly the one attempt; the new head is the inserted attempt or the old head.
   */
  lemma {:induction false} InsertByTimeSpec(a: LoginAttempt, s: seq<LoginAttempt>)
    requires NewestFirst(s)
    ensures var r := InsertByTime(a, s);
      && NewestFirst(r)
      && multiset(r) == multiset{a} + multiset(s)
      && |r| == |s| + 1 && (r[0] == a || (s != [] && r[0] == s[0]))
  {
    if s == [] || a.attemptTime >= s[0].attemptTime {
      PrependNewest(a, s);
    } else {
      assert NewestFirst(s[1..]);
      InsertByTimeSpec(a, s[1..]);
      PrependNewest(s[0], InsertByTime(a, s[1..]));
      assert s == [s[0]] + s[1..];
    }
  }

  /** Sorting yields a newest-first permutation of its input. */
  lemma {:induction false} SortNewestFirstSpec(s: seq<LoginAttempt>)
    ensures NewestFirst(SortNewestFirst(s))
    ensures multiset(SortNewestFirst(s)) == multiset(s)
  {
    if s != [] {
      SortNewestFirstSpec(s[1..]);
      InsertByTimeSpec(s[0], SortNewestFirst(s[1..]));
      assert s == [s[0]] + s[1..];
    }
  }

  /** The attempts of `username`, in insertion order. */
  function AttemptsOf(log: seq<LoginAttempt>, username: string): seq<LoginAttempt> {
    Filter(log, (a: LoginAttempt) => a.username == username)
  }

  /** The attempts of `username` with the given success flag, in insertion order. */
  function AttemptsWithOutcome(log: seq<LoginAttempt>, username: string, success: bool): seq<LoginAttempt> {
    Filter(log, (a: LoginAttempt) => a.username == username && a.success == success)
  }

  /** `findByUsernameOrderByAttemptTimeDesc`: all of that username's attempts, newest first. */
  function FindByUsernameOrderByAttemptTimeDesc(log: seq<LoginAttempt>, username: string): (r: seq<LoginAttempt>)
    ensures NewestFirst(r)
    ensures multiset(r) == multiset(AttemptsOf(log, username))
    ensures forall a :: a in r ==> a in log && a.username == username
    ensures forall a :: a in log && a.username == username ==> a in r
  {
    var f := AttemptsOf(log, username);
    FilterSpec(log, (a: LoginAttempt) => a.username == username);
    SortNewestFirstSpec(f);
    var r := SortNewestFirst(f);
    assert forall a :: a in r <==> a in f by {
      forall a ensures a in r <==> a in f {
        assert a in r <==> a in multiset(r);
        assert a in f <==> a in multiset(f);
      }
    }
    r
  }

  /**
   * `findByUsernameAndSuccessOrderByAttemptTimeDesc`: that username's attempts
   * with the given success flag, newest first.
   */
  function FindByUsernameAndSuccessOrderByAttemptTimeDesc(log: seq<LoginAttempt>, username: string, success: bool)
    : (r: seq<LoginAttempt>)
    ensures NewestFirst(r)
    ensures multiset(r) == multiset(AttemptsWithOutcome(log, username, success))
    ensures forall a :: a in r ==> a in log && a.username == username && a.success == success
    ensures forall a :: a in log && a.username == username && a.success == success ==> a in r
  {
    var f := AttemptsWithOutcome(log, username, success);
    FilterSpec(log, (a: LoginAttempt) => a.username == username && a.success == success);
    SortNewestFirstSpec(f);
    var r := SortNewestFirst(f);
    assert forall a :: a in r <==> a in f by {
      forall a ensures a in r <==> a in f {
        assert a in r <==> a in multiset(r);
        assert a in f <==> a in multiset(f);
      }
    }
    r
  }

  /** `findRecentAttempts`: `{ attemptTime: { $gte: since } }`, the bound included. */
  function FindRecentAttempts(log: seq<LoginAttempt>, since: int): (r: seq<LoginAttempt>)
    ensures forall a :: a in r <==> a in log && a.attemptTime >= since
  {
    FilterSpec(log, (a: LoginAttempt) => a.attemptTime >= since);
    Filter(log, (a: LoginAttempt) => a.attemptTime >= since)
  }

  /** `findFailedAttemptsSince`: `{ success: false, attemptTime: { $gte: since } }`. */
  function FindFailedAttemptsSince(log: seq<LoginAttempt>, since: int): (r: seq<LoginAttempt>)
    ensures forall a :: a in r <==> a in log && !a.success && a.attemptTime >= since
  {
    FilterSpec(log, (a: LoginAttempt) => !a.success && a.attemptTime >= since);
    Filter(log, (a: LoginAttempt) => !a.success && a.attemptTime >= since)
  }

  /** `findFailedAttemptsByIpSince`: the same filter plus exact IP equality. */
  function FindFailedAttemptsByIpSince(log: seq<LoginAttempt>, ipAddress: string, since: int): (r: seq<LoginAttempt>)
    ensures forall a :: a in r <==> a in log && a.ipAddress == ipAddress && !a.success && a.attemptTime >= since
  {
    FilterSpec(log, (a: LoginAttempt) => a.ipAddress == ipAddress && !a.success && a.attemptTime >= since);
    Filter(log, (a: LoginAttempt) => a.ipAddress == ipAddress && !a.success && a.attemptTime >= since)
  }

  /**
   * The username queries return each matching attempt exactly as often as the
   * collection holds it, and no other attempt.
   */
  lemma UsernameQueryCounts(log: seq<LoginAttempt>, username: string, success: bool)
    ensures forall a :: multiset(FindByUsernameOrderByAttemptTimeDesc(log, username))[a]
                     == if a.username == username then multiset(log)[a] else 0
    ensures forall a :: multiset(FindByUsernameAndSuccessOrderByAttemptTimeDesc(log, username, success))[a]
                     == if a.username == username && a.success == success then multiset(log)[a] else 0
  {
    FilterSpec(log, (a: LoginAttempt) => a.username == username);
    FilterSpec(log, (a: LoginAttempt) => a.username == username && a.success == success);
  }

  /**
   * The window queries return each matching attempt exactly as often as the
   * collection holds it, and no other attempt.
   */
  lemma WindowQueryCounts(log: seq<LoginAttempt>, ipAddress: string, since: int)
    ensures forall a :: multiset(FindRecentAttempts(log, since))[a]
                     == if a.attemptTime >= since then multiset(log)[a] else 0
    ensures forall a :: multiset(FindFailedAttemptsSince(log, since))[a]
                     == if !a.success && a.attemptTime >= since then multiset(log)[a] else 0
    ensures forall a :: multiset(FindFailedAttemptsByIpSince(log, ipAddress, since))[a]
                     == if a.ipAddress == ipAddress && !a.success && a.attemptTime >= since then multiset(log)[a] else 0
  {
    FilterSpec(log, (a: LoginAttempt) => a.attemptTime >= since);
    FilterSpec(log, (a: LoginAttempt) => !a.success && a.attemptTime >= since);
    FilterSpec(log, (a: LoginAttempt) => a.ipAddress == ipAddress && !a.success && a.attemptTime >= since);
  }

  /**
   * The failed attempts since `since` are among the attempts since `since`, so
   * there are no more of them; the difference is the number of successful ones.
   */
  lemma FailedWithinRecent(log: seq<LoginAttempt>, since: int)
    ensures forall a :: a in FindFailedAttemptsSince(log, since) ==> a in FindRecentAttempts(log, since)
    ensures |FindRecentAttempts(log, since)| - |FindFailedAttemptsSince(log, since)|
         == |Filter(log, (a: LoginAttempt) => a.success && a.attemptTime >= since)|
  {
    FilterSplitCount(log, (a: LoginAttempt) => a.attemptTime >= since,
                     (a: LoginAttempt) => !a.success && a.attemptTime >= since,
                     (a: LoginAttempt) => a.success && a.attemptTime >= since);
  }

  /** A newly appended attempt joins the recent attempts exactly when it is inside the window. */
  lemma RecentAppend(log: seq<LoginAttempt>, a: LoginAttempt, since: int)
    ensures FindRecentAttempts(log + [a], since)
         == FindRecentAttempts(log, since) + (if a.attemptTime >= since then [a] else [])
  {
    FilterAppend(log, a, (a: LoginAttempt) => a.attemptTime >= since);
  }

  /** A newly appended attempt joins the recent failures exactly when it failed inside the window. */
  lemma FailedAppend(log: seq<LoginAttempt>, a: LoginAttempt, since: int)
    ensures FindFailedAttemptsSince(log + [a], since)
         == FindFailedAttemptsSince(log, since) + (if !a.success && a.attemptTime >= since then [a] else [])
  {
    FilterAppend(log, a, (a: LoginAttempt) => !a.success && a.attemptTime >= since);
  }

  /** Appending one attempt changes the window counts by at most one each. */
  lemma AppendCounts(log: seq<LoginAttempt>, a: LoginAttempt, since: int)
    ensures |FindRecentAttempts(log + [a], since)|
         == |FindRecentAttempts(log, since)| + (if a.attemptTime >= since then 1 else 0)
    ensures |FindFailedAttemptsSince(log + [a], since)|
         == |FindFailedAttemptsSince(log, since)| + (if !a.success && a.attemptTime >= since then 1 else 0)
  {
    RecentAppend(log, a, since);
    FailedAppend(log, a, since);
  }
}
