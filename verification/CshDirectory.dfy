/** Working directories as the job table sees them (bin/csh/sh.dir.h). */
module CshDirectory {

  /** The counter is declared as a pointer to a short, so one reference adds the size of a short. */
  const SHORT := 2

  class Directory {
    var next: Directory?
    var prev: Directory?
    var count: nat
    var name: string

    constructor (name0: string)
      ensures next == null && prev == null && count == 0 && name == name0
    {
      next, prev, count, name := null, null, 0, name0;
    }
  }
}
