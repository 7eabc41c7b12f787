/**
 Waiting for a synchronisation: a promise that completion callbacks try to fulfil.
 Only a callback that mentions the awaited device counts, and only the first of those.
 */
module SyncCallback {
  import opened Wrappers
  import opened KvStore

  type Completion = map<string, Status>

  /** The verdict of the first completion that mentions the device. */
  function FirstMatch(completions: seq<Completion>, uuid: string): (r: Option<Status>)
    ensures r.None? <==> forall i | 0 <= i < |completions| :: uuid !in completions[i]
    ensures r.Some? ==> exists i | 0 <= i < |completions| ::
                          && uuid in completions[i] && r.value == completions[i][uuid]
                          && forall j | 0 <= j < i :: uuid !in completions[j]
  {
    if completions == [] then None
    else if uuid in completions[0] then Some(completions[0][uuid])
    else
      var r := FirstMatch(completions[1..], uuid);
      assert forall i | 1 <= i < |completions| :: completions[i] == completions[1..][i - 1];
      r
  }

  lemma {:induction false} FirstMatchAppend(completions: seq<Completion>, next: Completion, uuid: string)
    ensures FirstMatch(completions + [next], uuid)
         == if FirstMatch(completions, uuid).Some? then FirstMatch(completions, uuid)
            else if uuid in next then Some(next[uuid]) else None
  {
    if completions != [] {
      assert (completions + [next])[1..] == completions[1..] + [next];
      FirstMatchAppend(completions[1..], next, uuid);
    }
  }

  class DistributedDataStorageCallback {
    var resultStatusSignal: Option<Status>
    var isSetValue: bool
    var uuid: string
    ghost var fulfilments: nat  // how often the promise has been set; a second time would throw
    ghost var seen: seq<Completion>

    ghost predicate Valid()
      reads this
    {
      && (isSetValue <==> resultStatusSignal.Some?)
      && fulfilments == (if isSetValue then 1 else 0)
      && resultStatusSignal == FirstMatch(seen, uuid)
    }

    constructor (uuid: string)
      ensures Valid() && seen == [] && this.uuid == uuid
    {
      this.uuid := uuid;
      resultStatusSignal := None;
      isSetValue := false;
      fulfilments := 0;
      seen := [];
    }

    method SyncCompleted(result: Completion)
      requires Valid()
      modifies this
      ensures Valid() && seen == old(seen) + [result] && uuid == old(uuid)
      ensures fulfilments <= 1
    {
      FirstMatchAppend(seen, result, uuid);
      seen := seen + [result];
      if uuid !in result {
        return;
      }
      var status := result[uuid];
      if !isSetValue {
        isSetValue := true;
        resultStatusSignal := Some(status);
        fulfilments := fulfilments + 1;
      }
    }

    /** Called once the waiting time is over or the promise is set. */
    method GetResultCode() returns (status: Status)
      requires Valid()
      ensures status == if FirstMatch(seen, uuid).Some? then FirstMatch(seen, uuid).value else TIME_OUT
    {
      if resultStatusSignal.Some? {
        status := resultStatusSignal.value;
      } else {
        status := TIME_OUT;
      }
    }
  }

  /** The callbacks that arrive while the caller waits, delivered one after the other. */
  method AwaitSync(uuid: string, arrived: seq<Completion>) returns (status: Status)
    ensures status == match FirstMatch(arrived, uuid) case Some(s) => s case None => TIME_OUT
  {
    var callback := new DistributedDataStorageCallback(uuid);
    for i := 0 to |arrived|
      invariant callback.Valid() && callback.seen == arrived[..i] && callback.uuid == uuid
    {
      callback.SyncCompleted(arrived[i]);
    }
    assert arrived[..|arrived|] == arrived;
    status := callback.GetResultCode();
  }
}
