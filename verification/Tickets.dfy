// The 0-RTT tickets of vless/encryption/service.go and client.go.
module Tickets {
  import opened Bytes
  import opened ClientState
  import opened Nonce
  import opened Padding

  const TICKET_LENGTH := 16
  const ZERO_TICKET: bytes := Repeat(0, TICKET_LENGTH)

  // time.Time.Unix
  function Unix(t: int): int {
    t / SECOND
  }

  function Minute(t: int): int {
    Unix(t) / 60
  }

  // The index key a ticket issued now is filed under: its expiry minute.
  function ExpiryMinute(now: int, secondsFrom: nat, secondsTo: nat): int {
    (Unix(now) + Max(secondsFrom, secondsTo)) / 60 + 2
  }

  // The server's three maps, T a ticket (zero the all-zero one), S a session.
  datatype Store<T, S> = Store(zero: T, lasts: map<int, T>, tickets: seq<T>, sessions: map<T, S>)

  function Issue<T, S>(s: Store<T, S>, expiry: int, ticket: T, session: S): Store<T, S> {
    Store(s.zero, s.lasts[expiry := ticket], s.tickets + [ticket], s.sessions[ticket := session])
  }

  // The position after the first occurrence of last, or the whole length.
  function Through<T(==)>(tickets: seq<T>, last: T): (n: nat)
    ensures n <= |tickets|
  {
    if tickets == [] then 0 else if tickets[0] == last then 1 else 1 + Through(tickets[1..], last)
  }

  function WithoutSessions<T(==), S>(sessions: map<T, S>, tickets: seq<T>): map<T, S> {
    map t | t in sessions && t !in tickets :: sessions[t]
  }

  predicate Found<T(==), S>(s: Store<T, S>, minute: int) {
    minute in s.lasts && s.lasts[minute] != s.zero
  }

  // One cleanup: the index entry of this minute names the last ticket to drop.
  function Clean<T(==), S>(s: Store<T, S>, minute: int): Store<T, S> {
    var lasts := s.lasts - {minute, minute - 1};
    if !Found(s, minute) then s.(lasts := lasts)
    else
      var last := s.lasts[minute];
      var n := Through(s.tickets, last);
      Store(s.zero, lasts, if last in s.tickets then s.tickets[n..] else s.tickets, WithoutSessions(s.sessions, s.tickets[..n]))
  }

  lemma {:induction false} ThroughIsFirst<T(!new)>(tickets: seq<T>, last: T)
    ensures var n := Through(tickets, last);
            if last in tickets then n > 0 && tickets[n - 1] == last && last !in tickets[..n - 1] else n == |tickets|
  {
    if tickets != [] && tickets[0] != last {
      ThroughIsFirst(tickets[1..], last);
      var n := Through(tickets, last);
      if last in tickets {
        assert last in tickets[1..];
        assert tickets[..n - 1] == [tickets[0]] + tickets[1..][..n - 2];
      }
    }
  }

  lemma {:induction false} ThroughSkips<T(!new)>(tickets: seq<T>, last: T, n: nat)
    requires n <= |tickets| && last !in tickets[..n]
    ensures Through(tickets, last) == n + Through(tickets[n..], last)
  {
    if n > 0 {
      assert tickets[0] == tickets[..n][0];
      assert tickets[1..][..n - 1] == tickets[..n][1..];
      ThroughSkips(tickets[1..], last, n - 1);
      assert tickets[1..][n - 1..] == tickets[n..];
    } else {
      assert tickets[0..] == tickets;
    }
  }

  lemma ThroughAt<T(!new)>(tickets: seq<T>, last: T, i: nat)
    requires i < |tickets| && last !in tickets[..i] && tickets[i] == last
    ensures Through(tickets, last) == i + 1
  {
    ThroughSkips(tickets, last, i);
  }

  lemma WithoutNothing<T(!new), S>(sessions: map<T, S>)
    ensures forall tickets: seq<T> :: tickets == [] ==> WithoutSessions(sessions, tickets) == sessions
  {
  }

  lemma WithoutOneMore<T(!new), S>(sessions: map<T, S>, tickets: seq<T>, i: nat)
    requires i < |tickets|
    ensures WithoutSessions(sessions, tickets[..i + 1]) == WithoutSessions(sessions, tickets[..i]) - {tickets[i]}
  {
    assert tickets[..i + 1] == tickets[..i] + [tickets[i]];
  }

  class ServiceSession {
    const pfsKey: bytes
    var nfsKeys: set<bytes>

    constructor (pfsKey: bytes)
      ensures this.pfsKey == pfsKey && nfsKeys == {}
    {
      this.pfsKey := pfsKey;
      nfsKeys := {};
    }

    // sync.Map.LoadOrStore: a key is new exactly once.
    method LoadOrStore(nfsKey: bytes) returns (loaded: bool)
      modifies `nfsKeys
      ensures loaded <==> nfsKey in old(nfsKeys)
      ensures nfsKeys == old(nfsKeys) + {nfsKey}
    {
      loaded := nfsKey in nfsKeys;
      nfsKeys := nfsKeys + {nfsKey};
    }
  }

  // What becomes of a client's 0-RTT hello.
  datatype Resumed = Expired | Replayed | Resumed(pfsKey: bytes)

  class Service {
    const secondsFrom: nat
    const secondsTo: nat
    var lasts: map<int, bytes>
    var tickets: seq<bytes>
    var sessions: map<bytes, ServiceSession>

    ghost function State(): Store<bytes, ServiceSession>
      reads this
    {
      Store(ZERO_TICKET, lasts, tickets, sessions)
    }

    constructor (secondsFrom: nat, secondsTo: nat)
      ensures this.secondsFrom == secondsFrom && this.secondsTo == secondsTo
      ensures State() == Store(ZERO_TICKET, map[], [], map[])
    {
      this.secondsFrom, this.secondsTo := secondsFrom, secondsTo;
      lasts, tickets, sessions := map[], [], map[];
    }

    // The life promised to the client, in whole seconds.
    method DrawSeconds() returns (seconds: int)
      ensures 0 <= seconds <= Max(secondsFrom, secondsTo)
      ensures if secondsTo == 0 then secondsFrom * 50 / 100 <= seconds <= secondsFrom * 99 / 100
              else Between(secondsFrom, secondsTo, seconds)
    {
      if secondsTo == 0 {
        var r := RandBetween(50, 100);
        seconds := secondsFrom * r / 100;
        ShareAtMostWhole(secondsFrom, r);
      } else {
        seconds := RandBetween(secondsFrom, secondsTo);
      }
    }

    // Registers a freshly drawn ticket, whose first two bytes carry seconds.
    method IssueTicket(now: int, random: bytes, pfsKey: bytes) returns (ticket: bytes, seconds: int)
      requires |random| == TICKET_LENGTH
      modifies this
      ensures 0 <= seconds <= Max(secondsFrom, secondsTo)
      ensures if secondsTo == 0 then secondsFrom * 50 / 100 <= seconds <= secondsFrom * 99 / 100
              else Between(secondsFrom, secondsTo, seconds)
      ensures ticket == BE16(seconds) + random[2..]
      ensures if seconds > 0
              then exists session: ServiceSession :: fresh(session) && session.pfsKey == pfsKey && session.nfsKeys == {}
                     && State() == Issue(old(State()), ExpiryMinute(now, secondsFrom, secondsTo), ticket, session)
              else State() == old(State())
    {
      seconds := DrawSeconds();
      ticket := BE16(seconds) + random[2..];
      if seconds > 0 {
        var session := new ServiceSession(pfsKey);
        lasts := lasts[(Unix(now) + Max(secondsFrom, secondsTo)) / 60 + 2 := ticket];
        tickets := tickets + [ticket];
        sessions := sessions[ticket := session];
      }
    }

    // Drops the queue and its sessions up to the ticket last.
    method DropThrough(last: bytes)
      modifies `tickets, `sessions
      ensures var n := Through(old(tickets), last);
              && tickets == (if last in old(tickets) then old(tickets)[n..] else old(tickets))
              && sessions == WithoutSessions(old(sessions), old(tickets)[..n])
    {
      hide Through, WithoutSessions;
      WithoutNothing(sessions);
      var i := 0;
      while i < |tickets|
        invariant 0 <= i <= |tickets| && tickets == old(tickets)
        invariant last !in tickets[..i]
        invariant sessions == WithoutSessions(old(sessions), tickets[..i])
      {
        var ticket := tickets[i];
        WithoutOneMore(old(sessions), tickets, i);
        sessions := sessions - {ticket};
        if ticket == last {
          ThroughAt(tickets, last, i);
          tickets := tickets[i + 1..];
          return;
        }
        i := i + 1;
      }
      assert tickets[..i] == tickets;
      ThroughIsFirst(tickets, last);
    }

    // The body of loopCleanLegacySessions.
    method CleanLegacySessions(now: int)
      modifies `lasts, `tickets, `sessions
      ensures State() == Clean(old(State()), Minute(now))
    {
      var minute := Unix(now) / 60;
      var last := if minute in lasts then lasts[minute] else ZERO_TICKET;
      lasts := lasts - {minute};
      lasts := lasts - {minute - 1};
      assert lasts == old(lasts) - {minute, minute - 1};
      if last != ZERO_TICKET {
        DropThrough(last);
      }
    }

    // The 0-RTT branch of Handshake, once the ticket is open.
    method Resume(ticket: bytes, nfsKey: bytes) returns (r: Resumed)
      modifies if ticket in sessions then {sessions[ticket]} else {}
      ensures State() == old(State())
      ensures ticket !in sessions ==> r == Expired
      ensures ticket in sessions ==>
                && r == (if nfsKey in old(sessions[ticket].nfsKeys) then Replayed else Resumed.Resumed(sessions[ticket].pfsKey))
                && sessions[ticket].nfsKeys == old(sessions[ticket].nfsKeys) + {nfsKey}
    {
      if ticket !in sessions {
        return Expired;
      }
      var session := sessions[ticket];
      var loaded := session.LoadOrStore(nfsKey);
      if loaded {
        return Replayed;
      }
      return Resumed.Resumed(session.pfsKey);
    }
  }

  lemma ShareAtMostWhole(x: nat, r: int)
    requires 0 <= r <= 100
    ensures 0 <= x * r / 100 <= x
    ensures 50 <= r <= 99 ==> x * 50 / 100 <= x * r / 100 <= x * 99 / 100
  {
    HundredthsGrow(0, x * r);
    HundredthsGrow(x * r, x * 100);
    if 50 <= r <= 99 {
      HundredthsGrow(x * 50, x * r);
      HundredthsGrow(x * r, x * 99);
    }
  }

  lemma HundredthsGrow(a: int, b: int)
    requires a <= b
    ensures a / 100 <= b / 100
  {
  }

  // Runs.

  datatype Event<T, S> = Issued(now: int, ticket: T, session: S) | Cleaned(now: int)

  // A server with the facts the proofs need: the expiry minute of every ticket
  // ever issued, the time of the last event and the minute of the last cleanup.
  datatype World<T, S> = World(store: Store<T, S>, from: nat, to: nat, expiry: map<T, int>, clock: int, cleaned: int)

  function Start<T, S>(zero: T, from: nat, to: nat, clock: int): World<T, S> {
    World(Store(zero, map[], [], map[]), from, to, map[], clock, Minute(clock) - 1)
  }

  // The clock does not go back and a new ticket is not one of those in use.
  predicate Possible<T(==), S>(w: World<T, S>, e: Event<T, S>) {
    w.clock <= e.now && (e.Issued? ==> e.ticket !in w.store.sessions)
  }

  function Happen<T(==), S>(w: World<T, S>, e: Event<T, S>): World<T, S> {
    match e
    case Issued(now, ticket, session) =>
      var m := ExpiryMinute(now, w.from, w.to);
      w.(store := Issue(w.store, m, ticket, session), expiry := w.expiry[ticket := m], clock := now)
    case Cleaned(now) =>
      w.(store := Clean(w.store, Minute(now)), clock := now, cleaned := Minute(now))
  }

  predicate PossibleRun<T(==), S>(w: World<T, S>, es: seq<Event<T, S>>)
    decreases |es|
  {
    es == [] || (Possible(w, es[0]) && PossibleRun(Happen(w, es[0]), es[1..]))
  }

  function Run<T(==), S>(w: World<T, S>, es: seq<Event<T, S>>): World<T, S>
    decreases |es|
  {
    if es == [] then w else Run(Happen(w, es[0]), es[1..])
  }

  ghost predicate Distinct<T(!new)>(tickets: seq<T>) {
    forall i, j :: 0 <= i < j < |tickets| ==> tickets[i] != tickets[j]
  }

  ghost predicate SortedByExpiry<T(!new)>(tickets: seq<T>, expiry: map<T, int>) {
    && (forall i :: 0 <= i < |tickets| ==> tickets[i] in expiry)
    && (forall i, j :: 0 <= i < j < |tickets| ==> expiry[tickets[i]] <= expiry[tickets[j]])
  }

  // t is the last queued ticket that expires in minute m.
  ghost predicate LastOf<T(!new)>(tickets: seq<T>, expiry: map<T, int>, m: int, t: T)
    requires SortedByExpiry(tickets, expiry)
  {
    && t in tickets && expiry[t] == m
    && (forall i :: 0 <= i < |tickets| && expiry[tickets[i]] == m ==> i < Through(tickets, t))
  }

  // The index is exact for every minute the cleanup has not reached yet.
  ghost predicate IndexExact<T(!new)>(lasts: map<int, T>, tickets: seq<T>, expiry: map<T, int>, cleaned: int)
    requires SortedByExpiry(tickets, expiry)
  {
    && cleaned !in lasts
    && (forall m :: m in lasts && m > cleaned ==> LastOf(tickets, expiry, m, lasts[m]))
    && (forall t :: t in tickets && expiry[t] > cleaned ==> expiry[t] in lasts)
  }

  ghost predicate Invariant<T(!new), S>(w: World<T, S>) {
    && Distinct(w.store.tickets)
    && SortedByExpiry(w.store.tickets, w.expiry)
    && (forall t :: t in w.store.sessions <==> t in w.store.tickets)
    && (forall t :: t in w.expiry && w.expiry[t] > w.cleaned ==> t in w.store.tickets)
    && (forall t :: t in w.expiry ==> w.expiry[t] <= ExpiryMinute(w.clock, w.from, w.to))
    && w.cleaned <= Minute(w.clock)
    && IndexExact(w.store.lasts, w.store.tickets, w.expiry, w.cleaned)
  }

  lemma StartInvariant<T(!new), S>(zero: T, from: nat, to: nat, clock: int)
    ensures Invariant(Start<T, S>(zero, from, to, clock))
  {
  }

  // A ticket is filed one to two minutes behind the longest life it can have.
  lemma ExpiryIsNear(now: int, from: nat, to: nat)
    ensures 60 < 60 * ExpiryMinute(now, from, to) - (now / 1_000_000_000 + Max(from, to)) <= 120
  {
  }

  lemma ExpiryMonotone(a: int, b: int, from: nat, to: nat)
    requires a <= b
    ensures Minute(a) <= Minute(b) && ExpiryMinute(a, from, to) <= ExpiryMinute(b, from, to)
    ensures Minute(a) + 2 <= ExpiryMinute(a, from, to)
  {
    assert Unix(a) <= Unix(b);
  }

  // What survives a cleanup, by position.
  lemma CleanSplits<T(!new), S>(w: World<T, S>, m: int)
    requires Invariant(w) && w.cleaned <= m && Found(w.store, m)
    ensures m > w.cleaned
    ensures var n, tickets := Through(w.store.tickets, w.store.lasts[m]), w.store.tickets;
            && Clean(w.store, m).tickets == tickets[n..]
            && (forall i :: 0 <= i < n ==> w.expiry[tickets[i]] <= m)
            && (forall i :: n <= i < |tickets| ==> w.expiry[tickets[i]] > m)
  {
    var tickets, last := w.store.tickets, w.store.lasts[m];
    assert LastOf(tickets, w.expiry, m, last);
    ThroughIsFirst(tickets, last);
    var n := Through(tickets, last);
    assert tickets[n - 1] == last && w.expiry[last] == m;
    forall i | n <= i < |tickets| ensures w.expiry[tickets[i]] > m {
      assert w.expiry[tickets[n - 1]] <= w.expiry[tickets[i]];
    }
  }

  // The reference for a cleanup.
  function Later<T(==)>(tickets: seq<T>, expiry: map<T, int>, m: int): seq<T>
    requires forall t :: t in tickets ==> t in expiry
  {
    if tickets == [] then []
    else (if expiry[tickets[0]] > m then [tickets[0]] else []) + Later(tickets[1..], expiry, m)
  }

  lemma {:induction false} LaterOfSorted<T(!new)>(tickets: seq<T>, expiry: map<T, int>, m: int, n: nat)
    requires forall t :: t in tickets ==> t in expiry
    requires n <= |tickets|
    requires forall i :: 0 <= i < n ==> expiry[tickets[i]] <= m
    requires forall i :: n <= i < |tickets| ==> expiry[tickets[i]] > m
    ensures Later(tickets, expiry, m) == tickets[n..]
  {
    if tickets != [] {
      var k := if n == 0 then 0 else n - 1;
      forall i | 0 <= i < |tickets| - 1
        ensures i < k ==> expiry[tickets[1..][i]] <= m
        ensures k <= i ==> expiry[tickets[1..][i]] > m
      {
        assert tickets[1..][i] == tickets[i + 1];
      }
      LaterOfSorted(tickets[1..], expiry, m, k);
      if n == 0 {
        assert tickets == [tickets[0]] + tickets[1..];
      } else {
        assert tickets[n..] == tickets[1..][k..];
      }
    }
  }

  // A cleanup forgets the index entries of its minute and the one before.
  lemma CleanForgets<T(!new), S>(s: Store<T, S>, m: int)
    ensures Clean(s, m).lasts == s.lasts - {m, m - 1}
  {
  }

  // A cleanup that finds an entry for minute m leaves exactly the tickets
  // expiring after m, however many minutes were skipped before; one that finds
  // none leaves all.
  lemma CleanIsFilter<T(!new), S>(w: World<T, S>, m: int)
    requires Invariant(w) && w.cleaned <= m
    ensures forall t :: t in w.store.tickets ==> t in w.expiry
    ensures Clean(w.store, m).tickets
         == if Found(w.store, m) then Later(w.store.tickets, w.expiry, m) else w.store.tickets
    ensures forall t :: t in Clean(w.store, m).sessions <==> t in Clean(w.store, m).tickets
    ensures forall t :: t in Clean(w.store, m).sessions ==> Clean(w.store, m).sessions[t] == w.store.sessions[t]
  {
    if Found(w.store, m) {
      CleanSplits(w, m);
      hide IndexExact, Distinct;
      var tickets := w.store.tickets;
      var n := Through(tickets, w.store.lasts[m]);
      LaterOfSorted(tickets, w.expiry, m, n);
      SplitByExpiry(tickets, w.expiry, m, n);
    }
  }

  lemma SplitByExpiry<T(!new)>(tickets: seq<T>, expiry: map<T, int>, m: int, n: nat)
    requires forall t :: t in tickets ==> t in expiry
    requires n <= |tickets|
    requires forall i :: 0 <= i < n ==> expiry[tickets[i]] <= m
    requires forall i :: n <= i < |tickets| ==> expiry[tickets[i]] > m
    ensures forall t :: t in tickets[n..] <==> t in tickets && t !in tickets[..n]
  {
    assert tickets == tickets[..n] + tickets[n..];
    assert forall t :: t in tickets <==> t in tickets[..n] || t in tickets[n..];
    assert forall t :: t in tickets[..n] ==> expiry[t] <= m;
    assert forall t :: t in tickets[n..] ==> expiry[t] > m;
  }

  lemma SuffixKeepsOrder<T(!new)>(tickets: seq<T>, expiry: map<T, int>, n: nat, m: int)
    requires Distinct(tickets) && SortedByExpiry(tickets, expiry) && n <= |tickets|
    requires forall i :: 0 <= i < n ==> expiry[tickets[i]] <= m
    requires forall i :: n <= i < |tickets| ==> expiry[tickets[i]] > m
    ensures Distinct(tickets[n..]) && SortedByExpiry(tickets[n..], expiry)
    ensures forall t :: t in tickets[n..] <==> t in tickets && expiry[t] > m
  {
    var rest := tickets[n..];
    assert forall i :: 0 <= i < |rest| ==> rest[i] == tickets[n + i];
    forall t | t in tickets && expiry[t] > m ensures t in rest {
      var i :| 0 <= i < |tickets| && tickets[i] == t;
      assert rest[i - n] == t;
    }
  }

  lemma FoundKeepsOrder<T(!new), S>(w: World<T, S>, m: int)
    requires Invariant(w) && w.cleaned <= m && Found(w.store, m)
    ensures var rest := Clean(w.store, m).tickets;
            && Distinct(rest) && SortedByExpiry(rest, w.expiry)
            && (forall t :: t in rest <==> t in w.store.tickets && w.expiry[t] > m)
  {
    CleanSplits(w, m);
    hide Distinct, SortedByExpiry, IndexExact, Clean;
    SuffixKeepsOrder(w.store.tickets, w.expiry, Through(w.store.tickets, w.store.lasts[m]), m);
  }

  lemma LastIsLast<T(!new)>(tickets: seq<T>, expiry: map<T, int>, m: int, t: T)
    requires SortedByExpiry(tickets, expiry) && LastOf(tickets, expiry, m, t)
    ensures t in tickets && expiry[t] == m
  {
  }

  lemma SuffixKeepsLast<T(!new)>(tickets: seq<T>, expiry: map<T, int>, n: nat, m: int, k: int, last: T)
    requires SortedByExpiry(tickets, expiry) && LastOf(tickets, expiry, k, last) && n <= |tickets| && m < k
    requires forall i :: 0 <= i < n ==> expiry[tickets[i]] <= m
    requires SortedByExpiry(tickets[n..], expiry) && last in tickets[n..]
    ensures LastOf(tickets[n..], expiry, k, last)
  {
    assert last !in tickets[..n];
    ThroughSkips(tickets, last, n);
    forall i | 0 <= i < |tickets[n..]| && expiry[tickets[n..][i]] == k ensures i < Through(tickets[n..], last) {
      assert tickets[n..][i] == tickets[n + i];
    }
  }

  lemma SuffixKeepsIndex<T(!new)>(lasts: map<int, T>, tickets: seq<T>, expiry: map<T, int>, cleaned: int, n: nat, m: int)
    requires SortedByExpiry(tickets, expiry) && IndexExact(lasts, tickets, expiry, cleaned) && cleaned <= m && n <= |tickets|
    requires forall i :: 0 <= i < n ==> expiry[tickets[i]] <= m
    requires forall t :: t in tickets[n..] <==> t in tickets && expiry[t] > m
    requires SortedByExpiry(tickets[n..], expiry)
    ensures IndexExact(lasts - {m, m - 1}, tickets[n..], expiry, m)
  {
    forall t | t in tickets[n..] ensures expiry[t] in lasts - {m, m - 1} {
      assert expiry[t] in lasts;
    }
    hide LastOf, Through;
    forall k | k in lasts && k > m ensures LastOf(tickets[n..], expiry, k, lasts[k]) {
      assert LastOf(tickets, expiry, k, lasts[k]);
      LastIsLast(tickets, expiry, k, lasts[k]);
      SuffixKeepsLast(tickets, expiry, n, m, k, lasts[k]);
    }
  }

  lemma FoundKeepsIndex<T(!new), S>(w: World<T, S>, m: int)
    requires Invariant(w) && w.cleaned <= m && Found(w.store, m)
    requires SortedByExpiry(Clean(w.store, m).tickets, w.expiry)
    ensures IndexExact(Clean(w.store, m).lasts, Clean(w.store, m).tickets, w.expiry, m)
  {
    FoundKeepsOrder(w, m);
    CleanSplits(w, m);
    hide LastOf, IndexExact, Distinct;
    SuffixKeepsIndex(w.store.lasts, w.store.tickets, w.expiry, w.cleaned, Through(w.store.tickets, w.store.lasts[m]), m);
  }

  lemma FoundKeepsInvariant<T(!new), S>(w: World<T, S>, now: int)
    requires Invariant(w) && w.clock <= now && w.cleaned <= Minute(now) && Found(w.store, Minute(now))
    ensures Invariant(Happen(w, Cleaned(now)))
  {
    hide IndexExact, Distinct, SortedByExpiry, Clean;
    var m := Minute(now);
    ExpiryMonotone(w.clock, now, w.from, w.to);
    FoundKeepsOrder(w, m);
    FoundKeepsIndex(w, m);
    CleanIsFilter(w, m);
  }

  lemma NotFoundKeepsInvariant<T(!new), S>(w: World<T, S>, now: int)
    requires Invariant(w) && w.clock <= now && w.cleaned <= Minute(now) && !Found(w.store, Minute(now))
    ensures Invariant(Happen(w, Cleaned(now)))
  {
    hide Distinct, SortedByExpiry, LastOf;
    ExpiryMonotone(w.clock, now, w.from, w.to);
  }

  lemma CleanKeepsInvariant<T(!new), S>(w: World<T, S>, now: int)
    requires Invariant(w) && w.clock <= now
    ensures Invariant(Happen(w, Cleaned(now)))
  {
    hide Invariant, Happen;
    ReachedIsPast(w, now);
    if Found(w.store, Minute(now)) {
      FoundKeepsInvariant(w, now);
    } else {
      NotFoundKeepsInvariant(w, now);
    }
  }

  lemma ReachedIsPast<T(!new), S>(w: World<T, S>, now: int)
    requires Invariant(w) && w.clock <= now
    ensures w.cleaned <= Minute(now)
  {
    ExpiryMonotone(w.clock, now, w.from, w.to);
  }

  lemma IssueKeepsLast<T(!new)>(tickets: seq<T>, expiry: map<T, int>, m: int, ticket: T, k: int, last: T)
    requires SortedByExpiry(tickets, expiry) && LastOf(tickets, expiry, k, last) && ticket !in tickets && k != m
    requires SortedByExpiry(tickets + [ticket], expiry[ticket := m])
    ensures LastOf(tickets + [ticket], expiry[ticket := m], k, last)
  {
    ThroughOfPrefix(tickets, [ticket], last);
  }

  lemma IssueKeepsOrder<T(!new), S>(w: World<T, S>, now: int, ticket: T, session: S)
    requires Invariant(w) && Possible(w, Issued(now, ticket, session))
    ensures var w' := Happen(w, Issued(now, ticket, session));
            Distinct(w'.store.tickets) && SortedByExpiry(w'.store.tickets, w'.expiry) && ticket !in w.store.tickets
  {
    hide IndexExact, LastOf;
    var w' := Happen(w, Issued(now, ticket, session));
    var tickets := w.store.tickets;
    ExpiryMonotone(w.clock, now, w.from, w.to);
    assert ticket !in tickets;
    forall i | 0 <= i < |tickets| ensures w'.store.tickets[i] == tickets[i] && w'.expiry[tickets[i]] == w.expiry[tickets[i]] {
    }
  }

  lemma IssueKeepsIndex<T(!new), S>(w: World<T, S>, now: int, ticket: T, session: S)
    requires Invariant(w) && Possible(w, Issued(now, ticket, session))
    ensures var w' := Happen(w, Issued(now, ticket, session));
            SortedByExpiry(w'.store.tickets, w'.expiry) && IndexExact(w'.store.lasts, w'.store.tickets, w'.expiry, w'.cleaned)
  {
    var w' := Happen(w, Issued(now, ticket, session));
    var m, tickets := ExpiryMinute(now, w.from, w.to), w.store.tickets;
    IssueKeepsOrder(w, now, ticket, session);
    ExpiryMonotone(w.clock, now, w.from, w.to);
    forall k | k in w'.store.lasts && k > w.cleaned ensures LastOf(w'.store.tickets, w'.expiry, k, w'.store.lasts[k]) {
      hide Through;
      if k == m {
        ThroughSkips(w'.store.tickets, ticket, |tickets|);
      } else {
        hide LastOf;
        assert LastOf(tickets, w.expiry, k, w.store.lasts[k]);
        IssueKeepsLast(tickets, w.expiry, m, ticket, k, w.store.lasts[k]);
      }
    }
    hide LastOf, Through, Distinct;
  }

  lemma IssueKeepsInvariant<T(!new), S>(w: World<T, S>, now: int, ticket: T, session: S)
    requires Invariant(w) && Possible(w, Issued(now, ticket, session))
    ensures Invariant(Happen(w, Issued(now, ticket, session)))
  {
    ExpiryMonotone(w.clock, now, w.from, w.to);
    IssueKeepsOrder(w, now, ticket, session);
    IssueKeepsIndex(w, now, ticket, session);
    hide Distinct, SortedByExpiry, IndexExact;
  }

  lemma {:induction false} ThroughOfPrefix<T(!new)>(tickets: seq<T>, more: seq<T>, last: T)
    requires last in tickets
    ensures Through(tickets + more, last) == Through(tickets, last)
  {
    assert (tickets + more)[0] == tickets[0];
    if tickets[0] != last {
      assert (tickets + more)[1..] == tickets[1..] + more;
      ThroughOfPrefix(tickets[1..], more, last);
    }
  }

  // The invariant holds throughout every run.
  lemma {:induction false} RunKeepsInvariant<T(!new), S>(w: World<T, S>, es: seq<Event<T, S>>)
    requires Invariant(w) && PossibleRun(w, es)
    ensures Invariant(Run(w, es))
    decreases |es|
  {
    if es != [] {
      match es[0]
      case Issued(now, ticket, session) => IssueKeepsInvariant(w, now, ticket, session);
      case Cleaned(now) => CleanKeepsInvariant(w, now);
    }
    if es != [] {
      RunKeepsInvariant(Happen(w, es[0]), es[1..]);
    }
  }

  lemma {:induction false} RunGoesForward<T(!new), S>(w: World<T, S>, es: seq<Event<T, S>>)
    requires PossibleRun(w, es)
    ensures w.clock <= Run(w, es).clock
    decreases |es|
  {
    if es != [] {
      RunGoesForward(Happen(w, es[0]), es[1..]);
    }
  }

  // A queued ticket outlives every run that stays before its expiry minute.
  lemma {:induction false} SessionStays<T(!new), S>(w: World<T, S>, es: seq<Event<T, S>>, ticket: T)
    requires Invariant(w) && PossibleRun(w, es) && ticket in w.store.sessions
    requires Minute(Run(w, es).clock) < w.expiry[ticket]
    ensures ticket in Run(w, es).store.sessions && Run(w, es).store.sessions[ticket] == w.store.sessions[ticket]
    decreases |es|
  {
    if es != [] {
      var w' := Happen(w, es[0]);
      RunGoesForward(w', es[1..]);
      match es[0] {
        case Issued(now, t, session) =>
          IssueKeepsInvariant(w, now, t, session);
        case Cleaned(now) =>
          CleanKeepsInvariant(w, now);
          ReachedIsPast(w, now);
          CleanIsFilter(w, Minute(now));
          ExpiryMonotone(now, Run(w', es[1..]).clock, w.from, w.to);
      }
      assert Invariant(w') && ticket in w'.store.sessions && w'.expiry[ticket] == w.expiry[ticket];
      SessionStays(w', es[1..], ticket);
    }
  }

  // No session is deleted until more than 60 seconds after its issue time
  // plus the longest configured life.
  lemma KeptForItsLife<T(!new), S>(w: World<T, S>, now: int, ticket: T, session: S, es: seq<Event<T, S>>)
    requires Invariant(w) && Possible(w, Issued(now, ticket, session))
    requires PossibleRun(Happen(w, Issued(now, ticket, session)), es)
    requires Unix(Run(Happen(w, Issued(now, ticket, session)), es).clock) <= Unix(now) + Max(w.from, w.to) + 60
    ensures var sessions := Run(Happen(w, Issued(now, ticket, session)), es).store.sessions;
            ticket in sessions && sessions[ticket] == session
  {
    IssueKeepsInvariant(w, now, ticket, session);
    var t, u := Unix(now) + Max(w.from, w.to), Unix(Run(Happen(w, Issued(now, ticket, session)), es).clock);
    assert u / 60 < t / 60 + 2;
    SessionStays(Happen(w, Issued(now, ticket, session)), es, ticket);
  }

  // The promise across both ends: the server issues at time issued, the client
  // keeps the ticket for the truncated number of seconds from the time it
  // receives it, and uses it before its own deadline. If the two messages spend
  // at most 60 seconds under way, the server still has the session.
  lemma TicketPromise<T(!new), S>(
      w: World<T, S>, issued: int, ticket: T, session: S, seconds: nat,
      received: int, used: int, arrival: int, es: seq<Event<T, S>>)
    requires Invariant(w) && Possible(w, Issued(issued, ticket, session))
    requires seconds <= Max(w.from, w.to)
    requires used < received + FromBE16(BE16(seconds)) * SECOND
    requires (received - issued) + (arrival - used) <= 60 * SECOND
    requires PossibleRun(Happen(w, Issued(issued, ticket, session)), es)
    requires Run(Happen(w, Issued(issued, ticket, session)), es).clock <= arrival
    ensures var sessions := Run(Happen(w, Issued(issued, ticket, session)), es).store.sessions;
            ticket in sessions && sessions[ticket] == session
  {
    BE16RoundTrip(seconds);
    var life := Max(w.from, w.to) + 60;
    assert FromBE16(BE16(seconds)) <= seconds;
    assert arrival < issued + life * SECOND;
    assert Unix(issued + life * SECOND) == Unix(issued) + life;
    assert Unix(Run(Happen(w, Issued(issued, ticket, session)), es).clock) <= Unix(issued) + life;
    KeptForItsLife(w, issued, ticket, session, es);
  }

  // The same of every server from its start on, whatever it has issued and
  // cleaned before.
  lemma PromiseFromStart<T(!new), S>(
      zero: T, from: nat, to: nat, clock: int, earlier: seq<Event<T, S>>, issued: int, ticket: T, session: S, seconds: nat,
      received: int, used: int, arrival: int, es: seq<Event<T, S>>)
    requires PossibleRun(Start<T, S>(zero, from, to, clock), earlier)
    requires Possible(Run(Start<T, S>(zero, from, to, clock), earlier), Issued(issued, ticket, session))
    requires seconds <= Max(from, to)
    requires used < received + FromBE16(BE16(seconds)) * SECOND
    requires (received - issued) + (arrival - used) <= 60 * SECOND
    requires PossibleRun(Happen(Run(Start<T, S>(zero, from, to, clock), earlier), Issued(issued, ticket, session)), es)
    requires Run(Happen(Run(Start<T, S>(zero, from, to, clock), earlier), Issued(issued, ticket, session)), es).clock <= arrival
    ensures
      var sessions := Run(Happen(Run(Start<T, S>(zero, from, to, clock), earlier), Issued(issued, ticket, session)), es).store.sessions;
      ticket in sessions && sessions[ticket] == session
  {
    hide Invariant, Happen, Possible;
    StartInvariant<T, S>(zero, from, to, clock);
    RunKeepsInvariant(Start<T, S>(zero, from, to, clock), earlier);
    RunKeepsBounds(Start<T, S>(zero, from, to, clock), earlier);
    TicketPromise(Run(Start<T, S>(zero, from, to, clock), earlier), issued, ticket, session, seconds, received, used, arrival, es);
  }

  lemma {:induction false} RunKeepsBounds<T(!new), S>(w: World<T, S>, es: seq<Event<T, S>>)
    ensures Run(w, es).from == w.from && Run(w, es).to == w.to
    decreases |es|
  {
    if es != [] {
      RunKeepsBounds(Happen(w, es[0]), es[1..]);
    }
  }
}
