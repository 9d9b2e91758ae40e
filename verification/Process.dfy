/** Process descriptors as the schedulers and locks see them: the status field and
    its guarded transitions. */
module Process {

  datatype Status = Running | Ready | Blocked | BlockedRead | Delete | BlockedForeground

  predicate IsBlocked(st: Status) {
    st.Blocked? || st.BlockedRead? || st.BlockedForeground?
  }

  predicate Runnable(st: Status) {
    !IsBlocked(st) && !st.Delete?
  }

  class Process {
    const pid: nat
    var st: Status

    constructor (pid: nat)
      ensures this.pid == pid && st == Ready
    {
      this.pid := pid;
      st := Ready;
    }

    method Block()
      modifies this
      ensures st == if old(st) == Delete then Delete else Blocked
    {
      if st != Delete {
        st := Blocked;
      }
    }

    method Unblock()
      modifies this
      ensures st == if old(st) == Delete then Delete else Ready
    {
      if st != Delete {
        st := Ready;
      }
    }

    /** Processes 0 and 1 are never marked. */
    method Kill()
      modifies this
      ensures st == if pid == 0 || pid == 1 then old(st) else Delete
    {
      if pid != 1 && pid != 0 {
        st := Delete;
      }
    }
  }
}
