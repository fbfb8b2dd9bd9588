/** Result codes, limits and the few value types shared by every layer of the bus. */
module IarmTypes {

  datatype Option<+T> = None | Some(value: T)

  /** An IARM_Result_t. Handlers may return any C int, so codes are integers. */
  type Code = int

  const SUCCESS: Code := 0
  const INVALID_PARAM: Code := 1
  const INVALID_STATE: Code := 2
  const IPCCORE_FAIL: Code := 3

  /** Size of a name buffer, terminator included. */
  const MAX_NAME_LEN: nat := 64

  /** The string held by a terminated name buffer. */
  type Name = s: string | |s| < MAX_NAME_LEN witness ""

  const DAEMON_NAME: Name := "Daemon"

  /** What a bounded copy of `s` into room for `n` characters keeps. */
  function Trunc(s: string, n: nat): (r: string)
    ensures |r| <= n && r <= s
    ensures |s| <= n <==> r == s
  {
    if |s| <= n then s else s[..n]
  }
}
