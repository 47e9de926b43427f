/**
 Sealed invariants. A part of a class invariant, or of a loop's, is stated as
 `forall k: nat {:trigger PartOpen(k)} :: PartOpen(k) ==> Part`, so that a proof sees inside it only
 where it says `assert PartOpen(0)`. This keeps each proof to the facts it uses. Every kind of part
 has a predicate of its own; where `k` is compared with a number, one stage is told from the next.
 */
module Sealing {

  ghost predicate AllotOpen(k: nat) {
    true
  }

  ghost predicate BitsOpen(k: nat) {
    true
  }

  ghost predicate ChunkOpen(k: nat) {
    true
  }

  ghost predicate ClimbOpen(k: nat) {
    true
  }

  ghost predicate ConfinedOpen(k: nat) {
    true
  }

  ghost predicate CopyOpen(k: nat) {
    true
  }

  ghost predicate DiskOpen(k: nat) {
    true
  }

  ghost predicate HeapOpen(k: nat) {
    true
  }

  ghost predicate KernelOpen(k: nat) {
    true
  }

  ghost predicate ListOpen(k: nat) {
    true
  }

  ghost predicate LoggedOpen(k: nat) {
    true
  }

  ghost predicate MapOpen(k: nat) {
    true
  }

  ghost predicate OnceOpen(k: nat) {
    true
  }

  ghost predicate OwnOpen(k: nat) {
    true
  }

  ghost predicate PageOpen(k: nat) {
    true
  }

  ghost predicate PartOpen(k: nat) {
    true
  }

  ghost predicate PieceOpen(k: nat) {
    true
  }

  ghost predicate RingOpen(k: nat) {
    true
  }

  ghost predicate StandOpen(k: nat) {
    true
  }

  ghost predicate TextOpen(k: nat) {
    true
  }

  ghost predicate TraceOpen(k: nat) {
    true
  }

  ghost predicate WrittenOpen(k: nat) {
    true
  }
}
