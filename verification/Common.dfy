/** Shared result types. */
module Common {
  datatype Option<+T> = None | Some(value: T)

  /** The library's error values. */
  datatype Error = NotFound | Conflict | Busy | Integrity | Invalid | Unsupported | HandleClosed

  /** What a closure passed to `mutate` asks for: commit the new rows, roll back because the
      request was served before, or roll back with an error. */
  datatype Tx<+S, +R> = Commit(state: S, reply: R) | Replay(earlier: R) | Abort(error: Error)

  predicate IsHex(ch: char) {
    '0' <= ch <= '9' || 'a' <= ch <= 'f'
  }

  /** Lower-case hexadecimal text. */
  predicate AllHex(s: string) {
    forall i :: 0 <= i < |s| ==> IsHex(s[i])
  }
}
