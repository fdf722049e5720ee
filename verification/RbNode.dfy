/** Points in time, and the timer structure with its embedded tree node. */
module RbNode {

  /** A struct timeval; normalised when 0 <= usec < 1000000. */
  datatype Timeval = Timeval(sec: int, usec: int)

  /** struct osmo_timer_list: rb_node, expiration time, active flag. */
  class Node {
    var left: Node?
    var right: Node?
    var parent: Node?
    var red: bool
    var timeout: Timeval
    var active: bool

    constructor (timeout: Timeval)
      ensures !active && this.timeout == timeout
    {
      left, right, parent := null, null, null;
      red, active := false, false;
      this.timeout := timeout;
    }
  }
}
