/**
 * Neighbour Unreachability Detection states and the update flags of the
 * generic neighbour cache (include/net/neighbour.h).
 *
 * `nud_state` is a one-byte bit set in which the kernel always stores a
 * single state bit (or none), so a state is modelled as an enumeration and
 * each NUD_* mask as a predicate; `MasksAreBitTests` ties every predicate to
 * the mask it stands for.  The individual bit values are those of the Linux
 * user-space header linux/neighbour.h, which is not part of this model.
 */
module Nud {

  datatype State = NONE | INCOMPLETE | REACHABLE | STALE | DELAY | PROBE | FAILED | NOARP | PERMANENT

  /** The bit a state occupies in `nud_state`. */
  function Bit(s: State): bv8 {
    match s
    case NONE => 0x00
    case INCOMPLETE => 0x01
    case REACHABLE => 0x02
    case STALE => 0x04
    case DELAY => 0x08
    case PROBE => 0x10
    case FAILED => 0x20
    case NOARP => 0x40
    case PERMANENT => 0x80
  }

  const NUD_IN_TIMER: bv8 := Bit(INCOMPLETE) | Bit(REACHABLE) | Bit(DELAY) | Bit(PROBE)
  const NUD_VALID: bv8 := Bit(PERMANENT) | Bit(NOARP) | Bit(REACHABLE) | Bit(PROBE) | Bit(STALE) | Bit(DELAY)
  const NUD_CONNECTED: bv8 := Bit(PERMANENT) | Bit(NOARP) | Bit(REACHABLE)

  /** NUD_IN_TIMER: the per-entry timer runs. */
  predicate InTimer(s: State) {
    s == INCOMPLETE || s == REACHABLE || s == DELAY || s == PROBE
  }

  /** NUD_VALID: the cached hardware address may be used. */
  predicate IsValid(s: State) {
    s == PERMANENT || s == NOARP || s == REACHABLE || s == PROBE || s == STALE || s == DELAY
  }

  /** NUD_CONNECTED: the address is known to work without further checks. */
  predicate IsConnected(s: State) {
    s == PERMANENT || s == NOARP || s == REACHABLE
  }

  /** Each predicate is the bit test `nud_state & NUD_...` of the header. */
  lemma MasksAreBitTests(s: State)
    ensures InTimer(s) <==> Bit(s) & NUD_IN_TIMER != 0
    ensures IsValid(s) <==> Bit(s) & NUD_VALID != 0
    ensures IsConnected(s) <==> Bit(s) & NUD_CONNECTED != 0
  {
  }

  /** Every connected state is valid; INCOMPLETE runs a timer but is not
      valid; the administrative states never run a timer. */
  lemma MaskRelations(s: State)
    ensures IsConnected(s) ==> IsValid(s)
    ensures InTimer(INCOMPLETE) && !IsValid(INCOMPLETE)
    ensures !InTimer(PERMANENT) && !InTimer(NOARP)
    ensures InTimer(s) && !IsValid(s) ==> s == INCOMPLETE
    ensures !IsValid(FAILED) && !InTimer(FAILED) && !IsValid(NONE) && !InTimer(NONE)
  {
  }

  /** The flags argument of neigh_update, one field per NEIGH_UPDATE_F_* bit. */
  datatype UpdateFlags = UpdateFlags(
    override: bool,
    weakOverride: bool,
    overrideIsRouter: bool,
    isRouter: bool,
    admin: bool)

  const F_OVERRIDE: bv32 := 0x0000_0001
  const F_WEAK_OVERRIDE: bv32 := 0x0000_0002
  const F_OVERRIDE_ISROUTER: bv32 := 0x0000_0004
  const F_ISROUTER: bv32 := 0x4000_0000
  const F_ADMIN: bv32 := 0x8000_0000

  /** The flag word a caller passes; each field is recovered by its bit test. */
  function FlagWord(f: UpdateFlags): (w: bv32)
    ensures f.override <==> w & F_OVERRIDE != 0
    ensures f.weakOverride <==> w & F_WEAK_OVERRIDE != 0
    ensures f.overrideIsRouter <==> w & F_OVERRIDE_ISROUTER != 0
    ensures f.isRouter <==> w & F_ISROUTER != 0
    ensures f.admin <==> w & F_ADMIN != 0
  {
    (if f.override then F_OVERRIDE else 0) | (if f.weakOverride then F_WEAK_OVERRIDE else 0)
    | (if f.overrideIsRouter then F_OVERRIDE_ISROUTER else 0) | (if f.isRouter then F_ISROUTER else 0)
    | (if f.admin then F_ADMIN else 0)
  }
}
