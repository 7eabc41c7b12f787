/**
 The contract of the key/value store under the distributed table: a finite map behind an
 IPC channel.  A request can be done, refused without effect, or lost, in which case the
 caller sees IPC_ERROR and cannot know whether it took effect.  Which of these happens to
 the n-th request is decided by an arbitrary function, so statements about all such
 functions are statements about all fault patterns.
 */
module KvStore {
  import opened Bundles

  datatype Status = SUCCESS | IPC_ERROR | KEY_NOT_FOUND | TIME_OUT | OTHER(code: int)

  /** A stored text: either what `ToString` printed for an info, or a text `FromJsonString` rejects. */
  datatype StoredValue = Json(info: DistributedBundleInfo) | Corrupt(text: string)

  type Table = map<string, StoredValue>

  datatype Entry = Entry(key: string, value: StoredValue)

  datatype Request = Put(key: string, value: StoredValue) | Delete(key: string) | Get(key: string) | GetEntries

  datatype Outcome = Done | Refused(code: int) | Lost(applied: bool)

  type Faults = nat -> Outcome

  /** The store together with every request it has been sent. */
  datatype Kv = Kv(entries: Table, log: seq<Request>)

  function Apply(entries: Table, r: Request): Table {
    match r
    case Put(k, v) => entries[k := v]
    case Delete(k) => entries - {k}
    case Get(_) => entries
    case GetEntries => entries
  }

  function Answer(entries: Table, r: Request): Status {
    if r.Get? && r.key !in entries then KEY_NOT_FOUND else SUCCESS
  }

  function Issue(faults: Faults, kv: Kv, r: Request): (Status, Kv) {
    var log := kv.log + [r];
    match faults(|kv.log|)
    case Done => (Answer(kv.entries, r), Kv(Apply(kv.entries, r), log))
    case Refused(code) => (OTHER(code), Kv(kv.entries, log))
    case Lost(applied) => (IPC_ERROR, Kv(if applied then Apply(kv.entries, r) else kv.entries, log))
  }

  /** The retry the table uses: once more, only after IPC_ERROR. */
  function IssueTwice(faults: Faults, kv: Kv, r: Request): (Status, Kv) {
    var (status, kv') := Issue(faults, kv, r);
    if status == IPC_ERROR then Issue(faults, kv', r) else (status, kv')
  }

  predicate TakesEffect(o: Outcome) {
    o.Done? || (o.Lost? && o.applied)
  }

  /** The n-th request is answered with success, or lost and its repetition is. */
  predicate FinallyDone(faults: Faults, n: nat) {
    faults(n).Done? || (faults(n).Lost? && faults(n + 1).Done?)
  }

  /**
   What a write with one retry is: it is sent again exactly after a loss, it is reported as
   done exactly if the store finally answered so, and then it has taken effect once; in any
   case it has taken effect once or not at all, the former exactly if one of the requests did.
   */
  predicate WrittenWithRetry(faults: Faults, kv: Kv, r: Request, ok: bool, kv': Kv) {
    var n := |kv.log|;
    && (ok <==> FinallyDone(faults, n))
    && kv'.log == kv.log + (if faults(n).Lost? then [r, r] else [r])
    && kv'.entries == (if TakesEffect(faults(n)) || (faults(n).Lost? && TakesEffect(faults(n + 1)))
                       then Apply(kv.entries, r) else kv.entries)
    && (ok ==> kv'.entries == Apply(kv.entries, r))
  }

  /**
   A write that is retried after an ambiguous loss has the effect of one write or of none,
   reports success only for the former, touches only its own key, and reaches the store
   twice exactly after a loss.
   */
  lemma RetryHasSingleEffect(faults: Faults, kv: Kv, r: Request)
    requires r.Put? || r.Delete?
    ensures var (status, kv') := IssueTwice(faults, kv, r);
            && WrittenWithRetry(faults, kv, r, status == SUCCESS, kv')
            && (kv'.entries == kv.entries || kv'.entries == Apply(kv.entries, r))
            && (kv'.log == kv.log + [r] || (faults(|kv.log|).Lost? && kv'.log == kv.log + [r, r]))
            && forall k | k != r.key ::
                 && (k in kv'.entries <==> k in kv.entries)
                 && (k in kv.entries ==> kv'.entries[k] == kv.entries[k])
  {
    var (status, kv1) := Issue(faults, kv, r);
    assert Apply(Apply(kv.entries, r), r) == Apply(kv.entries, r);
    assert kv.log + [r] + [r] == kv.log + [r, r];
  }

  /** What `GetEntries` with the empty prefix hands out: every entry once, in some order. */
  ghost predicate IsScan(es: seq<Entry>, entries: Table) {
    && (forall i, j | 0 <= i < j < |es| :: es[i].key != es[j].key)
    && (forall e | e in es :: e.key in entries && entries[e.key] == e.value)
    && (forall k | k in entries :: Entry(k, entries[k]) in es)
  }

  class SingleKvStore {
    var entries: Table
    var log: seq<Request>
    const faults: Faults

    constructor (faults: Faults, entries: Table)
      ensures View() == Kv(entries, []) && this.faults == faults
    {
      this.faults := faults;
      this.entries := entries;
      log := [];
    }

    function View(): Kv
      reads this
    {
      Kv(entries, log)
    }

    method Send(r: Request) returns (status: Status)
      modifies this
      ensures (status, View()) == Issue(faults, old(View()), r)
    {
      var outcome := faults(|log|);
      log := log + [r];
      match outcome
      case Done =>
        status := Answer(entries, r);
        entries := Apply(entries, r);
      case Refused(code) =>
        status := OTHER(code);
      case Lost(applied) =>
        status := IPC_ERROR;
        if applied {
          entries := Apply(entries, r);
        }
    }

    method Scan() returns (status: Status, es: seq<Entry>)
      modifies this
      ensures (status, View()) == Issue(faults, old(View()), GetEntries)
      ensures entries == old(entries) && IsScan(es, entries)
    {
      status := Send(GetEntries);
      es := [];
      var rest := entries.Keys;
      while rest != {}
        invariant rest <= entries.Keys
        invariant forall i, j | 0 <= i < j < |es| :: es[i].key != es[j].key
        invariant forall e | e in es :: e.key in entries && entries[e.key] == e.value && e.key !in rest
        invariant forall k | k in entries && k !in rest :: Entry(k, entries[k]) in es
        decreases rest
      {
        var k :| k in rest;
        es := es + [Entry(k, entries[k])];
        rest := rest - {k};
      }
    }

    /** A synchronisation replaces what the replica holds under a key prefix. */
    method ReplacePrefix(prefix: string, incoming: Table)
      modifies this`entries
      ensures entries == ReplaceUnder(old(entries), prefix, incoming)
    {
      entries := ReplaceUnder(entries, prefix, incoming);
    }
  }

  function ReplaceUnder(entries: Table, prefix: string, incoming: Table): (r: Table)
    ensures forall k | prefix <= k :: (k in r <==> k in incoming) && (k in r ==> r[k] == incoming[k])
    ensures forall k | !(prefix <= k) :: (k in r <==> k in entries) && (k in r ==> r[k] == entries[k])
  {
    map k | k in entries.Keys + incoming.Keys && (if prefix <= k then k in incoming else k in entries)
          :: if prefix <= k then incoming[k] else entries[k]
  }
}
