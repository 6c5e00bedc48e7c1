/** `SessionStorageService`: the single process-wide slot for the custom token. */
module SessionStorage {
  import opened Wrappers

  /** The slot; `None` is Java's `null`. */
  datatype Store = Store(token: Option<string>)

  /** The slot as the component is created. */
  const Initial: Store := Store(None)

  /** `getToken`. */
  function Get(s: Store): Option<string>
  {
    s.token
  }

  /** `setToken`: overwrite the slot. */
  function Set(s: Store, t: Option<string>): (r: Store)
    ensures Get(r) == t
  {
    Store(t)
  }

  datatype Op = GetOp | SetOp(t: Option<string>)

  function Apply(s: Store, op: Op): Store
  {
    match op
    case GetOp => s
    case SetOp(t) => Set(s, t)
  }

  /** The store after performing `ops` in order. */
  function Replay(s: Store, ops: seq<Op>): Store
    decreases |ops|
  {
    if |ops| == 0 then s else Replay(Apply(s, ops[0]), ops[1..])
  }

  /** The value of the last `setToken` in `ops`, or `initial` when there is none. */
  function LastWritten(ops: seq<Op>, initial: Option<string>): Option<string>
    decreases |ops|
  {
    if |ops| == 0 then initial
    else match ops[|ops| - 1]
      case SetOp(t) => t
      case GetOp => LastWritten(ops[..|ops| - 1], initial)
  }

  /** `getToken` reads `null` before the first write. */
  lemma InitiallyEmpty()
    ensures Get(Initial) == None
  {
  }

  /** A read does not change the slot, and a write hides every earlier one. */
  lemma ReadsAndWrites(s: Store, a: Option<string>, b: Option<string>)
    ensures Apply(s, GetOp) == s
    ensures Set(Set(s, a), b) == Set(s, b)
  {
  }

  lemma {:induction false} LastWrittenAppend(ops: seq<Op>, op: Op, initial: Option<string>)
    ensures LastWritten(ops + [op], initial) == Get(Apply(Store(LastWritten(ops, initial)), op))
  {
    assert (ops + [op])[..|ops|] == ops;
  }

  lemma {:induction false} ReplaySplit(s: Store, ops: seq<Op>, op: Op)
    ensures Replay(s, ops + [op]) == Apply(Replay(s, ops), op)
    decreases |ops|
  {
    if |ops| > 0 {
      assert (ops + [op])[1..] == ops[1..] + [op];
      ReplaySplit(Apply(s, ops[0]), ops[1..], op);
    }
  }

  /** After any sequence of reads and writes, `getToken` returns the value of
      the most recent `setToken`, or what the slot held before when there was none. */
  lemma {:induction false} ReadsLastWrite(s: Store, ops: seq<Op>)
    ensures Get(Replay(s, ops)) == LastWritten(ops, Get(s))
    decreases |ops|
  {
    if |ops| > 0 {
      var init := ops[..|ops| - 1];
      var last := ops[|ops| - 1];
      assert ops == init + [last];
      ReadsLastWrite(s, init);
      ReplaySplit(s, init, last);
      LastWrittenAppend(init, last, Get(s));
    }
  }

  /** The Spring singleton holding the slot. */
  class SessionStorageService {
    var store: Store

    constructor()
      ensures store == Initial
    {
      store := Initial;
    }

    method GetToken() returns (t: Option<string>)
      ensures t == Get(store)
    {
      t := store.token;
    }

    method SetToken(t: Option<string>)
      modifies this
      ensures store == Set(old(store), t)
    {
      store := Store(t);
    }
  }
}
