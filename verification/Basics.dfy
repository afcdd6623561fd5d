/** What everything else is made of: keys, identifiers, hashes, moments.

A hash, an identifier and a key are fixed-length byte strings; each is represented by the number its bytes
spell in big-endian order, so that comparing them byte by byte is comparing numbers. Zero is the zero identifier,
which is no identifier, and no key. */
module Basics {
  type Key = nat
  type Hash = nat
  type ID = nat

  /** A moment of the hybrid logical clock (internal/hlc/hlc.go). */
  datatype Time = Time(wall: int, counter: nat) {
    predicate Before(u: Time) {
      wall < u.wall || (wall == u.wall && counter < u.counter)
    }
  }

  /** What the clock gives next, at the physical time now, after last (internal/hlc/hlc.go:33-43). */
  function Tick(last: Time, now: int): (t: Time)
    ensures last.Before(t)
    ensures t.wall >= now && t.wall >= last.wall && (t.wall == last.wall ==> t.counter > last.counter)
    ensures now <= last.wall ==> t.wall == last.wall
  {
    if now > last.wall then Time(now, 0) else Time(last.wall, last.counter + 1)
  }

  datatype Option<+T> = None | Some(value: T)
}
