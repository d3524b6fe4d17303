/** The four computing players and the synchronous reveals between them. */
module Players {
  import opened Words

  /** One value per player. */
  datatype Four<+T> = Four(p0: T, p1: T, p2: T, p3: T)

  /** Replicated: players 0 and 1 hold one summand, players 2 and 3 the other. */
  ghost predicate Replicated(x: Four<u32>, v: u32) {
    x.p0 == x.p1 && x.p2 == x.p3 && W32(x.p0 + x.p2) == v
  }

  ghost predicate Additive(x: Four<u32>, v: u32) {
    W32(x.p0 + x.p1 + x.p2 + x.p3) == v
  }

  /** The value is a sum modulo 2^32: of two words that the pairs hold, or of all four. */
  lemma SharesAre(x: Four<u32>, v: u32)
    ensures Replicated(x, v) <==> x.p0 == x.p1 && x.p2 == x.p3 && (x.p0 + x.p2) % 0x1_0000_0000 == v
    ensures Additive(x, v) <==> (x.p0 + x.p1 + x.p2 + x.p3) % 0x1_0000_0000 == v
  {
  }

  /** Players 0 and 1, and players 2 and 3, exchange their words and add them. */
  function TwoReveal(x: Four<u32>): Four<u32> {
    Four(W32(x.p0 + x.p1), W32(x.p1 + x.p0), W32(x.p2 + x.p3), W32(x.p3 + x.p2))
  }

  /** Players 0 and 2, and players 1 and 3, exchange and add. */
  function DiagReveal(x: Four<u32>): Four<u32> {
    Four(W32(x.p0 + x.p2), W32(x.p1 + x.p3), W32(x.p2 + x.p0), W32(x.p3 + x.p1))
  }

  /** Each player adds what its diagonal, its neighbour and its opposite sent to what it holds. */
  function LattReveal(x: Four<u32>, sent: Four<u32>): Four<u32> {
    Four(W32(x.p0 + sent.p3), W32(x.p1 + sent.p2), W32(x.p2 + sent.p1), W32(x.p3 + sent.p0))
  }
}
