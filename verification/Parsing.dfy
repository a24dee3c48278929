/** Decoders as functions from bytes to a value and the bytes behind it: one field after another,
    and a count of items each read from what the previous one left. */
module Parsing {
  import opened Prelude

  /** A decoded value and the bytes behind it. */
  datatype Parsed<+T> = Parsed(value: T, rest: Bytes)

  type Parser<!T, !E> = Bytes -> Result<Parsed<T>, E>

  /** The parser accepts exactly the encodings of admissible values, and stops at their end. */
  ghost predicate Exact<T(!new), E>(p: Parser<T, E>, enc: T -> Bytes, ok: T -> bool) {
    && (forall b :: p(b).Ok? ==> b == enc(p(b).value.value) + p(b).value.rest && ok(p(b).value.value))
    && (forall t, rest :: ok(t) ==> p(enc(t) + rest) == Ok(Parsed(t, rest)))
  }

  // ---------------------------------------------------------------- one field after another

  function RunPair<A, B, E>(p: Parser<A, E>, q: Parser<B, E>, b: Bytes): Result<Parsed<(A, B)>, E> {
    match p(b)
    case Err(e) => Err(e)
    case Ok(Parsed(x, rest)) =>
      match q(rest)
      case Err(e) => Err(e)
      case Ok(Parsed(y, left)) => Ok(Parsed((x, y), left))
  }

  function Pair<A, B, E>(p: Parser<A, E>, q: Parser<B, E>): Parser<(A, B), E> {
    (b: Bytes) => RunPair(p, q, b)
  }

  function EncodePair<A, B>(e: A -> Bytes, f: B -> Bytes): ((A, B)) -> Bytes {
    (xy: (A, B)) => e(xy.0) + f(xy.1)
  }

  function Both<A, B>(ok: A -> bool, ok': B -> bool): ((A, B)) -> bool {
    (xy: (A, B)) => ok(xy.0) && ok'(xy.1)
  }

  lemma PairComplete<A(!new), B(!new), E>(p: Parser<A, E>, e: A -> Bytes, ok: A -> bool,
                                          q: Parser<B, E>, f: B -> Bytes, ok': B -> bool, x: A, y: B, rest: Bytes)
    requires Exact(p, e, ok) && Exact(q, f, ok') && ok(x) && ok'(y)
    ensures RunPair(p, q, e(x) + f(y) + rest) == Ok(Parsed((x, y), rest))
  {
    Rebracket(e(x), f(y), rest);
  }

  lemma PairExact<A(!new), B(!new), E>(p: Parser<A, E>, e: A -> Bytes, ok: A -> bool,
                                       q: Parser<B, E>, f: B -> Bytes, ok': B -> bool)
    requires Exact(p, e, ok) && Exact(q, f, ok')
    ensures Exact(Pair(p, q), EncodePair(e, f), Both(ok, ok'))
  {
    forall b | RunPair(p, q, b).Ok?
      ensures var r := RunPair(p, q, b).value;
        b == e(r.value.0) + f(r.value.1) + r.rest && ok(r.value.0) && ok'(r.value.1)
    {
      var Parsed(x, rest) := p(b).value;
      var Parsed(y, left) := q(rest).value;
      Rebracket(e(x), f(y), left);
    }
    forall xy: (A, B), rest | ok(xy.0) && ok'(xy.1)
      ensures RunPair(p, q, e(xy.0) + f(xy.1) + rest) == Ok(Parsed(xy, rest))
    {
      PairComplete(p, e, ok, q, f, ok', xy.0, xy.1, rest);
    }
  }

  // ---------------------------------------------------------------- a value under another name

  function RunMap<A, B, E>(p: Parser<A, E>, f: A -> B, b: Bytes): Result<Parsed<B>, E> {
    match p(b)
    case Err(e) => Err(e)
    case Ok(Parsed(x, rest)) => Ok(Parsed(f(x), rest))
  }

  function MapParser<A, B, E>(p: Parser<A, E>, f: A -> B): Parser<B, E> {
    (b: Bytes) => RunMap(p, f, b)
  }

  /** Renaming through a bijection keeps a parser exact. */
  lemma MapExact<A(!new), B(!new), E>(p: Parser<A, E>, e: A -> Bytes, ok: A -> bool, f: A -> B, g: B -> A,
                                      e': B -> Bytes, ok': B -> bool)
    requires Exact(p, e, ok)
    requires forall x :: g(f(x)) == x
    requires forall y :: f(g(y)) == y && e'(y) == e(g(y)) && ok'(y) == ok(g(y))
    ensures Exact(MapParser(p, f), e', ok')
  {
    forall b | RunMap(p, f, b).Ok?
      ensures var r := RunMap(p, f, b).value; b == e'(r.value) + r.rest && ok'(r.value)
    {
      assert g(f(p(b).value.value)) == p(b).value.value;
    }
    forall y, rest | ok'(y) ensures RunMap(p, f, e'(y) + rest) == Ok(Parsed(y, rest)) {
      assert f(g(y)) == y;
    }
  }

  // ---------------------------------------------------------------- a value that must be the one expected

  function RunGuard<A(==), B, E>(p: Parser<A, E>, want: A, refuse: A -> E, q: Parser<B, E>, b: Bytes)
    : Result<Parsed<B>, E>
  {
    match p(b)
    case Err(e) => Err(e)
    case Ok(Parsed(x, rest)) => if x != want then Err(refuse(x)) else q(rest)
  }

  function Guard<A(==), B, E>(p: Parser<A, E>, want: A, refuse: A -> E, q: Parser<B, E>): Parser<B, E> {
    (b: Bytes) => RunGuard(p, want, refuse, q, b)
  }

  function EncodeAfter<B>(prefix: Bytes, e: B -> Bytes): B -> Bytes {
    (y: B) => prefix + e(y)
  }

  lemma GuardExact<A(!new), B(!new), E>(p: Parser<A, E>, e: A -> Bytes, ok: A -> bool, want: A, refuse: A -> E,
                                           q: Parser<B, E>, f: B -> Bytes, ok': B -> bool)
    requires Exact(p, e, ok) && ok(want) && Exact(q, f, ok')
    ensures Exact(Guard(p, want, refuse, q), EncodeAfter(e(want), f), ok')
  {
    forall b | RunGuard(p, want, refuse, q, b).Ok?
      ensures var r := RunGuard(p, want, refuse, q, b).value; b == e(want) + f(r.value) + r.rest && ok'(r.value)
    {
      var r := q(p(b).value.rest).value;
      Rebracket(e(want), f(r.value), r.rest);
    }
    forall y, rest | ok'(y) ensures RunGuard(p, want, refuse, q, e(want) + f(y) + rest) == Ok(Parsed(y, rest)) {
      Rebracket(e(want), f(y), rest);
    }
  }

  // ---------------------------------------------------------------- a count of items

  type Step<!T, !S, !E> = (Bytes, S) -> Result<Parsed<T>, E>

  /** `count` items; `next` gives the state the following item is read in. */
  function Many<T, S, E>(step: Step<T, S, E>, next: T -> S, b: Bytes, count: nat, s: S): Result<Parsed<seq<T>>, E>
    decreases count
  {
    if count == 0 then Ok(Parsed([], b))
    else
      match step(b, s)
      case Err(e) => Err(e)
      case Ok(Parsed(t, rest)) =>
        match Many(step, next, rest, count - 1, next(t))
        case Err(e) => Err(e)
        case Ok(Parsed(ts, left)) => Ok(Parsed([t] + ts, left))
  }

  function Concat<T>(enc: T -> Bytes, ts: seq<T>): Bytes {
    if ts == [] then [] else enc(ts[0]) + Concat(enc, ts[1..])
  }

  /** Every item is admissible in the state its predecessor left. */
  predicate Chain<T, S>(ok: (T, S) -> bool, next: T -> S, ts: seq<T>, s: S)
    decreases |ts|
  {
    ts == [] || (ok(ts[0], s) && Chain(ok, next, ts[1..], next(ts[0])))
  }

  /** What a step accepts is an admissible item's encoding. */
  ghost predicate Sound<T, S(!new), E>(step: Step<T, S, E>, enc: T -> Bytes, ok: (T, S) -> bool) {
    forall b, s :: step(b, s).Ok? ==> var p := step(b, s).value; b == enc(p.value) + p.rest && ok(p.value, s)
  }

  /** Every admissible item's encoding is accepted, whatever follows. */
  ghost predicate Complete<T(!new), S(!new), E>(step: Step<T, S, E>, enc: T -> Bytes, ok: (T, S) -> bool) {
    forall t, s, rest :: ok(t, s) ==> step(enc(t) + rest, s) == Ok(Parsed(t, rest))
  }

  lemma Rebracket(a: Bytes, b: Bytes, c: Bytes)
    ensures a + b + c == a + (b + c)
  {
  }

  lemma ConcatCons<T>(enc: T -> Bytes, t: T, ts: seq<T>)
    ensures Concat(enc, [t] + ts) == enc(t) + Concat(enc, ts)
  {
    assert ([t] + ts)[1..] == ts;
  }

  lemma ChainCons<T, S>(ok: (T, S) -> bool, next: T -> S, t: T, ts: seq<T>, s: S)
    requires ok(t, s) && Chain(ok, next, ts, next(t))
    ensures Chain(ok, next, [t] + ts, s)
  {
    assert ([t] + ts)[1..] == ts;
  }

  lemma {:induction false} ManySound<T, S(!new), E>(
      step: Step<T, S, E>, next: T -> S, enc: T -> Bytes, ok: (T, S) -> bool,
      b: Bytes, count: nat, s: S, ts: seq<T>, left: Bytes)
    requires Sound(step, enc, ok)
    requires Many(step, next, b, count, s) == Ok(Parsed(ts, left))
    ensures b == Concat(enc, ts) + left && |ts| == count && Chain(ok, next, ts, s)
    decreases count
  {
    if count == 0 {
      assert b == [] + b;
    } else {
      var Parsed(t, rest) := step(b, s).value;
      var tail := ts[1..];
      assert ts == [t] + tail;
      ManySound(step, next, enc, ok, rest, count - 1, next(t), tail, left);
      ConcatCons(enc, t, tail);
      ChainCons(ok, next, t, tail, s);
      Rebracket(enc(t), Concat(enc, tail), left);
    }
  }

  lemma {:induction false} ManyComplete<T(!new), S(!new), E>(step: Step<T, S, E>, next: T -> S, enc: T -> Bytes,
                                                            ok: (T, S) -> bool, ts: seq<T>, left: Bytes, s: S)
    requires Complete(step, enc, ok) && Chain(ok, next, ts, s)
    ensures Many(step, next, Concat(enc, ts) + left, |ts|, s) == Ok(Parsed(ts, left))
    decreases |ts|
  {
    if ts == [] {
      assert Concat(enc, ts) + left == left;
    } else {
      var t, tail := ts[0], ts[1..];
      assert ts == [t] + tail;
      ManyComplete(step, next, enc, ok, tail, left, next(t));
      Rebracket(enc(t), Concat(enc, tail), left);
    }
  }

  /** Repeated decoding fails only as one step does. */
  lemma {:induction false} ManyRefuses<T, S(!new), E>(step: Step<T, S, E>, next: T -> S, b: Bytes, count: nat, s: S,
                                                     as_: E -> bool)
    requires forall b, s :: step(b, s).Err? ==> as_(step(b, s).error)
    ensures Many(step, next, b, count, s).Err? ==> as_(Many(step, next, b, count, s).error)
    decreases count
  {
    if count > 0 && step(b, s).Ok? {
      var Parsed(t, rest) := step(b, s).value;
      ManyRefuses(step, next, rest, count - 1, next(t), as_);
    }
  }

  /** One item more: what decoding `k` items left decides how decoding goes on. */
  lemma {:induction false} ManySnoc<T, S, E>(step: Step<T, S, E>, next: T -> S, b: Bytes, k: nat, count: nat, s: S,
                                            ts: seq<T>, rest: Bytes, state: S)
    requires Many(step, next, b, k, s) == Ok(Parsed(ts, rest)) && k < count
    requires state == if ts == [] then s else next(ts[|ts|-1])
    ensures step(rest, state).Err? ==> Many(step, next, b, count, s) == Err(step(rest, state).error)
    ensures step(rest, state).Ok? ==> var item := step(rest, state).value;
      Many(step, next, b, k + 1, s) == Ok(Parsed(ts + [item.value], item.rest))
    decreases k
  {
    if k > 0 {
      var Parsed(t, rest1) := step(b, s).value;
      assert ts == [t] + ts[1..];
      ManySnoc(step, next, rest1, k - 1, count - 1, next(t), ts[1..], rest, state);
      if step(rest, state).Ok? {
        assert [t] + (ts[1..] + [step(rest, state).value.value]) == ts + [step(rest, state).value.value];
      }
    } else if step(rest, state).Ok? {
      assert [step(rest, state).value.value] + [] == ts + [step(rest, state).value.value];
    }
  }

  /** The decoding loop. */
  method DecodeMany<T, S, E>(step: Step<T, S, E>, next: T -> S, b: Bytes, count: nat, s: S)
    returns (r: Result<Parsed<seq<T>>, E>)
    ensures r == Many(step, next, b, count, s)
  {
    var done: seq<T>, rest, state := [], b, s;
    for k := 0 to count
      invariant Many(step, next, b, k, s) == Ok(Parsed(done, rest))
      invariant state == if done == [] then s else next(done[|done|-1])
    {
      ManySnoc(step, next, b, k, count, s, done, rest, state);
      var item := step(rest, state);
      if item.Err? { return Err(item.error); }
      done, rest, state := done + [item.value.value], item.value.rest, next(item.value.value);
    }
    return Ok(Parsed(done, rest));
  }

  /** A count, then that many items. */
  function RunCounted<T, E>(count: Parser<nat, E>, item: Parser<T, E>, b: Bytes): Result<Parsed<seq<T>>, E> {
    match count(b)
    case Err(e) => Err(e)
    case Ok(Parsed(n, rest)) => Many(Stateless(item), Nothing, rest, n, ())
  }

  /** No state is carried from item to item. */
  function Nothing<T>(t: T): () {
    ()
  }

  function Stateless<T, E>(item: Parser<T, E>): Step<T, (), E> {
    (b: Bytes, _: ()) => item(b)
  }

  function Counted<T, E>(count: Parser<nat, E>, item: Parser<T, E>): Parser<seq<T>, E> {
    (b: Bytes) => RunCounted(count, item, b)
  }

  function EncodeCounted<T>(c: nat -> Bytes, e: T -> Bytes): seq<T> -> Bytes {
    (ts: seq<T>) => c(|ts|) + Concat(e, ts)
  }

  predicate AllOk<T>(ok: T -> bool, ts: seq<T>) {
    forall i :: 0 <= i < |ts| ==> ok(ts[i])
  }

  function CountedOk<T>(okCount: nat -> bool, ok: T -> bool): seq<T> -> bool {
    (ts: seq<T>) => okCount(|ts|) && AllOk(ok, ts)
  }

  lemma {:induction false} ChainAll<T>(ok: T -> bool, ts: seq<T>)
    ensures Chain((t: T, _: ()) => ok(t), Nothing, ts, ()) <==> AllOk(ok, ts)
  {
    if ts != [] {
      ChainAll(ok, ts[1..]);
      assert ts == [ts[0]] + ts[1..];
    }
  }

  lemma StatelessExact<T(!new), E>(item: Parser<T, E>, e: T -> Bytes, ok: T -> bool)
    requires Exact(item, e, ok)
    ensures Sound(Stateless(item), e, (t: T, _: ()) => ok(t)) && Complete(Stateless(item), e, (t: T, _: ()) => ok(t))
  {
  }

  lemma CountedSound<T(!new), E>(count: Parser<nat, E>, c: nat -> Bytes, okCount: nat -> bool,
                                 item: Parser<T, E>, e: T -> Bytes, ok: T -> bool, b: Bytes, ts: seq<T>, left: Bytes)
    requires Exact(count, c, okCount) && Exact(item, e, ok)
    requires RunCounted(count, item, b) == Ok(Parsed(ts, left))
    ensures b == c(|ts|) + Concat(e, ts) + left && okCount(|ts|) && AllOk(ok, ts)
  {
    var Parsed(n, rest) := count(b).value;
    StatelessExact(item, e, ok);
    ManySound(Stateless(item), Nothing, e, (t: T, _: ()) => ok(t), rest, n, (), ts, left);
    ChainAll(ok, ts);
    Rebracket(c(n), Concat(e, ts), left);
  }

  lemma CountedComplete<T(!new), E>(count: Parser<nat, E>, c: nat -> Bytes, okCount: nat -> bool,
                                    item: Parser<T, E>, e: T -> Bytes, ok: T -> bool, ts: seq<T>, left: Bytes)
    requires Exact(count, c, okCount) && Exact(item, e, ok)
    requires okCount(|ts|) && AllOk(ok, ts)
    ensures RunCounted(count, item, c(|ts|) + Concat(e, ts) + left) == Ok(Parsed(ts, left))
  {
    StatelessExact(item, e, ok);
    ChainAll(ok, ts);
    ManyComplete(Stateless(item), Nothing, e, (t: T, _: ()) => ok(t), ts, left, ());
    Rebracket(c(|ts|), Concat(e, ts), left);
  }

  lemma CountedExact<T(!new), E>(count: Parser<nat, E>, c: nat -> Bytes, okCount: nat -> bool,
                                 item: Parser<T, E>, e: T -> Bytes, ok: T -> bool)
    requires Exact(count, c, okCount) && Exact(item, e, ok)
    ensures Exact(Counted(count, item), EncodeCounted(c, e), CountedOk(okCount, ok))
  {
    forall b | RunCounted(count, item, b).Ok?
      ensures var r := RunCounted(count, item, b).value;
        b == c(|r.value|) + Concat(e, r.value) + r.rest && okCount(|r.value|) && AllOk(ok, r.value)
    {
      var r := RunCounted(count, item, b).value;
      CountedSound(count, c, okCount, item, e, ok, b, r.value, r.rest);
    }
    forall ts, left | okCount(|ts|) && AllOk(ok, ts)
      ensures RunCounted(count, item, c(|ts|) + Concat(e, ts) + left) == Ok(Parsed(ts, left))
    {
      CountedComplete(count, c, okCount, item, e, ok, ts, left);
    }
  }
}
