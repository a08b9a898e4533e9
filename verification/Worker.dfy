/** One scan on the worker thread (gui_worker_run in src/gui/gui_worker.c): who owns the result. */
module Worker {
  import opened CText
  import opened ScanModel
  import S = Scanner
  import Walk

  /** A heap block that holds one scan result. */
  class Block {
    var result: Option<seq<Check>>
    ghost var freed: bool

    constructor ()
      ensures !freed && result == None
    {
      result, freed := None, false;
    }

    method Free()
      requires !freed
      modifies this
      ensures freed && result == old(result)
    {
      freed := true;
    }
  }

  /** The caller's on_done: it is given the status and, with it, the result. */
  class Done {
    var calls: seq<(Status, Option<Block>)>

    constructor ()
      ensures calls == []
    {
      calls := [];
    }

    method Deliver(status: Status, block: Option<Block>)
      modifies this
      ensures calls == old(calls) + [(status, block)]
    {
      calls := calls + [(status, block)];
    }
  }

  /**
    gui_worker_run: `onDone` is called exactly once, with a live result it then owns or with none;
    without `onDone` nothing is left behind.  `scanned` is what the scanner itself returns.
   */
  method RunWorker(allocates: bool, scanned: Status, registry: seq<S.Detector>, w: Walk.World, onDone: Option<Done>)
    returns (ghost block: Option<Block>)
    modifies if onDone.Some? then {onDone.value} else {}
    ensures block.Some? <==> allocates
    ensures block.Some? ==> fresh(block.value)
    ensures onDone.Some? ==>
              var delivered := if allocates && scanned == Fine then block else None;
              && onDone.value.calls
                 == old(onDone.value.calls) + [(if allocates then scanned else NoMemory, delivered)]
              && (delivered.Some? ==> !delivered.value.freed && delivered.value.result == Some(S.Checks(registry, w)))
    ensures block.Some? && (onDone.None? || scanned != Fine) ==> block.value.freed
  {
    hide S.Checks;
    block := None;
    if !allocates {
      if onDone.Some? {
        onDone.value.Deliver(NoMemory, None);
      }
      return;
    }
    var result := new Block();
    block := Some(result);
    var owned := true;
    if scanned == Fine {
      var checks, status, skipped, excluded := S.Scan(registry, w);
      result.result := Some(checks);
    } else {
      result.Free();
      owned := false;
    }
    if onDone.Some? {
      onDone.value.Deliver(scanned, if owned then Some(result) else None);
    } else if owned {
      result.Free();
    }
  }
}
