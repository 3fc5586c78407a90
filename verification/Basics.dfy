/** What every other module uses. */
module Basics {

  datatype Option<+T> = None | Some(value: T)

  function Min(x: int, y: int): int {
    if x < y then x else y
  }

  function Max(x: int, y: int): int {
    if x < y then y else x
  }
}

/** Byte strings: a Go string is a sequence of bytes. */
module Bytes {

  type byte = b: int | 0 <= b < 256

  type bytes = seq<byte>

  const NEWLINE: byte := 10
}

/** Unicode's White_Space property, as unicode.IsSpace and strings.TrimSpace have it. */
module Unicode {

  predicate IsSpace(code: int) {
    || 0x09 <= code <= 0x0D || code == 0x20 || code == 0x85 || code == 0xA0 || code == 0x1680
    || 0x2000 <= code <= 0x200A || code == 0x2028 || code == 0x2029 || code == 0x202F || code == 0x205F
    || code == 0x3000
  }
}

/** Limits the hosted and the CLI-backed paths share (internal/agent/conversation.go, cli.go). */
module Limits {
  import opened Basics

  const MAX_NUDGES: nat := 5

  const UNLIMITED_TURNS: int := -1

  /** remainingTurns: what is left of max_turns, an absent cap staying the sentinel. */
  function RemainingTurns(maxTurns: nat, spent: nat): int {
    if maxTurns == 0 then UNLIMITED_TURNS else Max(maxTurns - spent, 0)
  }
}
