/**
 * The pools of one worker as the objects an entry takes from and gives back to, and the
 * cleanup at the end of an entry (source/lawd/http_server.c).
 */
module HttpEntry {
  import opened HttpPools
  import opened Worker

  /** law_hts_pool: a list of free buffers or stacks, which are numbered in the order they were made. */
  class ItemPool {
    var list: seq<nat>

    /** law_hts_buf_pool_init and law_hts_stk_pool_init, when every allocation succeeds. */
    constructor (size: nat)
      ensures list == Fresh(size)
      ensures |list| == size && forall i :: 0 <= i < size ==> list[i] == size - 1 - i
    {
      list := [];
      new;
      var n := 0;
      while n < size
        invariant 0 <= n <= size && list == Fresh(n)
      {
        list := [n] + list;
        n := n + 1;
      }
      FreshIs(size);
    }

    method Pop() returns (item: Option<nat>)
      modifies this
      ensures if old(list) == [] then item == None && list == [] else item == Some(old(list)[0]) && list == old(list)[1..]
    {
      if list == [] { return None; }
      item := Some(list[0]);
      list := list[1..];
    }

    method Push(item: nat)
      modifies this
      ensures list == [item] + old(list)
    {
      list := [item] + list;
    }
  }

  /** law_hts_pool_group. */
  class PoolGroup {
    const input: ItemPool
    const output: ItemPool
    const heap: ItemPool
    const stack: ItemPool

    ghost predicate Valid() {
      input != output && input != heap && input != stack && output != heap && output != stack && heap != stack
    }

    function Free(): seq<seq<nat>>
      reads input, output, heap, stack
    {
      [input.list, output.list, heap.list, stack.list]
    }

    constructor (workerTasks: nat)
      ensures Valid() && Free() == Init(workerTasks, 0, 0).free
      ensures fresh(input) && fresh(output) && fresh(heap) && fresh(stack)
    {
      heap := new ItemPool(workerTasks);
      stack := new ItemPool(workerTasks);
      input := new ItemPool(workerTasks);
      output := new ItemPool(workerTasks);
    }

    /** The four pops of law_hts_entry; None is a failed assertion, which ends the process. */
    method Take() returns (kit: Option<seq<nat>>)
      requires Valid()
      modifies input, output, heap, stack
      ensures kit.None? <==> AnyEmpty(old(Free()))
      ensures kit.Some? ==> kit.value == Fronts(old(Free())) && Free() == Popped(old(Free()))
    {
      ghost var was := Free();
      assert was[0] == input.list && was[1] == output.list && was[2] == heap.list && was[3] == stack.list;
      var i := input.Pop();
      var o := output.Pop();
      var h := heap.Pop();
      var s := stack.Pop();
      if i.None? || o.None? || h.None? || s.None? { return None; }
      assert !AnyEmpty(was);
      return Some([i.value, o.value, h.value, s.value]);
    }

    /** The four pushes at the end of law_hts_entry. */
    method Return(kit: seq<nat>)
      requires Valid() && |kit| == POOLS
      modifies input, output, heap, stack
      ensures Free() == Pushed(old(Free()), kit)
    {
      input.Push(kit[0]);
      output.Push(kit[1]);
      heap.Push(kit[2]);
      stack.Push(kit[3]);
    }
  }

  // Cleanup ---------------------------------------------------------------------------------

  /** law_htc_ssl_accept: no SSL object, one freed on failure, or one left in use. */
  datatype Accept = NotMade | FreedOnFailure | InUse

  /** What an entry holds of the outside world. */
  class Session {
    var open: bool
    var registered: bool
    var ssl: bool
    var errors: nat

    constructor ()
      ensures open && !registered && !ssl && errors == 0
    {
      open, registered, ssl, errors := true, false, false, 0;
    }

    method SslAccept(a: Accept)
      requires !ssl
      modifies this`ssl
      ensures ssl <==> a.InUse?
    {
      ssl := a.InUse?;
    }

    /** SSL_free: never twice, never without an SSL object. */
    method SslFree()
      requires ssl
      modifies this`ssl
      ensures !ssl
    {
      ssl := false;
    }

    /** Deleting is tried only on what was added. */
    method Delete(ok: bool)
      requires registered
      modifies this`registered
      ensures registered <==> !ok
    {
      registered := !ok;
    }

    method Close()
      requires open && !ssl
      modifies this`open
      ensures !open
    {
      open := false;
    }

    /**
     * law_hts_entry_setup: on every path the socket is closed exactly once and last, the SSL
     * object is freed exactly when it is in use, and the registration is deleted exactly
     * when it was made.  Each failing step outside the handler reports one error.
     */
    method Setup(added: bool, secured: bool, a: Accept, served: bool, shutdown: bool, deleted: bool)
      requires open && !registered && !ssl
      modifies this
      ensures !open && !ssl && (registered <==> added && !deleted)
      ensures errors == old(errors)
                        + (if !added then 1 else 0)
                        + (if added && !deleted then 1 else 0)
                        + (if added && secured && !a.InUse? then 1 else 0)
                        + (if added && secured && a.InUse? && served && !shutdown then 1 else 0)
    {
      registered := added;
      if !added {
        errors := errors + 1;
        Close();
        return;
      }
      if secured {
        SslAccept(a);
        if a.InUse? {
          if served && !shutdown { errors := errors + 1; }
          SslFree();
        } else {
          errors := errors + 1;
        }
      }
      Delete(deleted);
      if !deleted { errors := errors + 1; }
      Close();
    }
  }
}
