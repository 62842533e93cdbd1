/**
 * Anonymous unions (utils/src/haskellism/aunion.rs): a value sits at some
 * position of a chain of `AUnionCons` cases. The position the Rust code
 * picks with a type-level natural is an explicit index here, and every
 * position holds values of one type `V`.
 */
module AnonymousUnion {
  import opened Wrappers

  /** `AUnionCons`: the value is the head, or it is somewhere in the tail.
   *  The empty union `AUnionNil` has no values; every value of this type
   *  ends in a head, so none stands for it. */
  datatype AUnion<V> = Hd(head: V) | Tl(tail: AUnion<V>)

  /** The position of the value: how many `Tl` cases wrap its head. */
  function Index<V>(u: AUnion<V>): nat {
    match u
    case Hd(_) => 0
    case Tl(t) => 1 + Index(t)
  }

  /** The value held, wherever it sits. */
  function ValueOf<V>(u: AUnion<V>): V {
    match u
    case Hd(h) => h
    case Tl(t) => ValueOf(t)
  }

  /** `inject` at position `n`: `Hd` at 0, and one more `Tl` per step. */
  function Inject<V>(n: nat, v: V): (r: AUnion<V>)
    ensures Index(r) == n && ValueOf(r) == v
  {
    if n == 0 then Hd(v) else Tl(Inject(n - 1, v))
  }

  /** Puts position `n` back into a union it was taken out of: the inverse
   *  of the error `select` returns. */
  function Widen<V>(n: nat, e: AUnion<V>): (r: AUnion<V>)
    ensures ValueOf(r) == ValueOf(e)
    ensures Index(r) == if Index(e) < n then Index(e) else Index(e) + 1
  {
    if n == 0 then Tl(e)
    else
      match e
      case Hd(h) => Hd(h)
      case Tl(t) => Tl(Widen(n - 1, t))
  }

  /** `select` at position `n`: the value when it sits there; otherwise the
   *  same value in the union without position `n`, which is what `Tl`
   *  means at position 0 and what wrapping the tail's error in `Tl` (or
   *  keeping a head) gives further on. */
  function Select<V>(n: nat, u: AUnion<V>): (r: Result<V, AUnion<V>>)
    ensures r.Ok? <==> Index(u) == n
    ensures r.Ok? ==> r.value == ValueOf(u)
    ensures r.Err? ==> Widen(n, r.error) == u
  {
    if n == 0 then
      match u
      case Hd(h) => Ok(h)
      case Tl(t) => Err(t)
    else
      match u
      case Hd(h) => Err(Hd(h))
      case Tl(t) =>
        match Select(n - 1, t)
        case Ok(v) => Ok(v)
        case Err(e) => Err(Tl(e))
  }

  /** Selecting at the position a value was injected at gives it back. */
  lemma SelectInject<V>(n: nat, v: V)
    ensures Select(n, Inject(n, v)) == Ok(v)
  {
  }

  /** A union is determined by its position and its value, so a union
   *  `select` accepts at `n` is the injection of what it returns. */
  lemma {:induction false} InjectSelect<V>(n: nat, u: AUnion<V>)
    requires Select(n, u).Ok?
    ensures Inject(n, Select(n, u).value) == u
    decreases u
  {
    match u
    case Hd(_) =>
    case Tl(t) => InjectSelect(n - 1, t);
  }

  /** Selecting at another position than the one injected at fails, with
   *  the value kept and its position shifted down past `n`. */
  lemma SelectElsewhere<V>(n: nat, m: nat, v: V)
    requires n != m
    ensures Select(n, Inject(m, v)).Err?
    ensures var e := Select(n, Inject(m, v)).error;
      ValueOf(e) == v && Index(e) == if m < n then m else m - 1
  {
    var u := Inject(m, v);
    var e := Select(n, u).error;
    assert Index(Widen(n, e)) == m;
  }

  /** Widening at `n` then selecting at `n` returns the union widened. */
  lemma {:induction false} SelectWiden<V>(n: nat, e: AUnion<V>)
    ensures Select(n, Widen(n, e)) == Err(e)
    decreases n
  {
    if n > 0 {
      match e
      case Hd(_) =>
      case Tl(t) => SelectWiden(n - 1, t);
    }
  }
}
