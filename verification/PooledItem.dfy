/** Handles on pooled values and who may give one back (crates/io/src/pool/pooled_item.rs). */
module PooledItem {
  import opened Prelude

  /** A pool as a handle sees it: what has been returned to it. `NULL_POOL` keeps nothing. */
  class Home<T> {
    const isNull: bool
    var returned: seq<T>

    constructor (isNull: bool)
      ensures this.isNull == isNull && returned == []
    {
      this.isNull, returned := isNull, [];
    }

    method ReturnValue(value: T)
      modifies this
      ensures returned == old(returned) + if isNull then [] else [value]
    {
      if !isNull {
        returned := returned + [value];
      }
    }
  }

  class Pooled<T> {
    var value: Option<T>
    const pool: Home<T>

    constructor (value: T, pool: Home<T>)
      ensures this.value == Some(value) && this.pool == pool
    {
      this.value, this.pool := Some(value), pool;
    }

    /** What dropping the handle would return. */
    ghost function Owes(): seq<T>
      reads this
    {
      if value.Some? && !pool.isNull then [value.value] else []
    }

    method Drop()
      modifies this, pool
      ensures value == None && pool.returned == old(pool.returned) + old(Owes())
    {
      if value.Some? {
        var taken := value.value;
        value := None;
        pool.ReturnValue(taken);
      }
    }

    /** The value is the caller's; the drop at the end of the call finds nothing. */
    method Forget() returns (v: T)
      requires value.Some?
      modifies this, pool
      ensures v == old(value.value) && value == None && pool.returned == old(pool.returned)
    {
      v := value.value;
      value := None;
      Drop();
    }

    /** A result that is an error has consumed the value: nothing is left to return. */
    method ApplyResult<E>(f: T -> Result<T, E>) returns (e: Option<E>)
      requires value.Some?
      modifies this, pool
      ensures pool.returned == old(pool.returned)
      ensures match f(old(value.value))
        case Ok(w) => value == Some(w) && e == None
        case Err(x) => value == None && e == Some(x)
    {
      var v := value.value;
      value := None;
      match f(v) {
        case Ok(w) =>
          value := Some(w);
          e := None;
        case Err(x) =>
          e := Some(x);
          Drop();
      }
    }

    /** A copy is never returned to the pool. */
    method Clone(nullPool: Home<T>) returns (copy: Pooled<T>)
      requires nullPool.isNull
      ensures fresh(copy) && copy.value == value && copy.pool == nullPool && copy.Owes() == []
    {
      copy := new Pooled.Copy(value, nullPool);
    }

    constructor Copy(value: Option<T>, pool: Home<T>)
      ensures this.value == value && this.pool == pool
    {
      this.value, this.pool := value, pool;
    }
  }

  datatype Result<+T, +E> = Ok(ok: T) | Err(error: E)

  // ----- the life of a handle -----

  /** The value left after these applications, or nothing if one of them failed. */
  function Applied<T, E>(v: T, fs: seq<T -> Result<T, E>>): Option<T> {
    if fs == [] then Some(v) else
    match fs[0](v)
    case Ok(w) => Applied(w, fs[1..])
    case Err(_) => None
  }

  /**
   A handle that is worked on, perhaps cloned or forgotten, and dropped: the pool gets the value it now has, once, unless
   an application failed or the value was forgotten; then the pool gets nothing. Dropping again changes nothing.
   */
  method Live<T, E>(v: T, pool: Home<T>, nullPool: Home<T>, fs: seq<T -> Result<T, E>>, cloned: bool, forgotten: bool)
    returns (kept: Option<T>)
    requires !pool.isNull && nullPool.isNull
    modifies pool, nullPool
    ensures kept == if forgotten then Applied(v, fs) else None
    ensures pool.returned == old(pool.returned) +
      if !forgotten && Applied(v, fs).Some? then [Applied(v, fs).value] else []
  {
    var h := new Pooled(v, pool);
    var i := 0;
    while i < |fs| && h.value.Some?
      invariant 0 <= i <= |fs| && fresh(h) && h.pool == pool && pool.returned == old(pool.returned)
      invariant Applied(v, fs) == if h.value.Some? then Applied(h.value.value, fs[i..]) else None
      decreases |fs| - i
    {
      var e := h.ApplyResult(fs[i]);
      i := i + 1;
    }
    if cloned {
      var copy := h.Clone(nullPool);
      copy.Drop();
    }
    kept := None;
    if forgotten && h.value.Some? {
      var w := h.Forget();
      kept := Some(w);
    }
    h.Drop();
    h.Drop();
  }
}
