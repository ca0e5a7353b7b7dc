// The ticket cache of vless/encryption/client.go.
module ClientState {
  import opened Bytes

  const SECOND: int := 1_000_000_000 // times are in nanoseconds

  class Client {
    const seconds: nat // 0 when 0-RTT is off
    var expireAt: int
    var pfsKey: bytes
    var ticket: bytes

    constructor (seconds: nat)
      ensures this.seconds == seconds && expireAt == 0 && pfsKey == [] && ticket == []
    {
      this.seconds, expireAt, pfsKey, ticket := seconds, 0, [], [];
    }

    // Keeps the ticket of a 1-RTT handshake for as many seconds as its first
    // two bytes say.
    method Keep(now: int, ticket: bytes, pfsKey: bytes)
      requires |ticket| >= 2
      modifies this
      ensures if seconds > 0 && FromBE16(ticket) > 0
              then this.ticket == ticket && this.pfsKey == pfsKey && expireAt == now + FromBE16(ticket) * SECOND
              else unchanged(this)
    {
      var life := FromBE16(ticket);
      if seconds > 0 && life > 0 {
        expireAt := now + life * SECOND;
        this.pfsKey := pfsKey;
        this.ticket := ticket;
      }
    }

    // Whether a handshake starting now is a 0-RTT one.
    predicate CanResume(now: int)
      reads this
    {
      seconds > 0 && now < expireAt
    }

    // Ticket and key stay, and the deadline unless the ticket has been voided.
    twostate predicate Stays(voided: bool, unitedKey: bytes, now: int)
      reads this
    {
      && ticket == old(ticket) && pfsKey == old(pfsKey)
      && expireAt == if voided && old(pfsKey) <= unitedKey then now else old(expireAt)
    }

    // What a connection opened with the cached ticket does on an invalid
    // header: the ticket is void unless a newer one has replaced it.
    method Expire(unitedKey: bytes, now: int)
      modifies `expireAt
      ensures expireAt == if pfsKey <= unitedKey then now else old(expireAt)
    {
      if pfsKey <= unitedKey {
        expireAt := now;
      }
    }
  }
}
