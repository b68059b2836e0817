/** Ruby values, errors and the small list/hash helpers the datasource core is built on. */
module Values {

  datatype Option<T> = None | Some(value: T)

  /** The exceptions the core raises, by Ruby class. */
  datatype Error =
    | DatasourceError(message: string)   // Datasource::Error
    | RuntimeError(message: string)      // a bare `raise "..."` or `fail "..."`
    | ArgumentError(message: string)
    | NoMethodError(name: string)
    | NameError(name: string)
    | TypeError(message: string)

  datatype Result<T> = Ok(value: T) | Err(error: Error) {
    predicate IsFailure() { Err? }
    function PropagateFailure<U>(): Result<U>
      requires Err?
    {
      Err(error)
    }
    function Extract(): T
      requires Ok?
    {
      value
    }
  }

  /** A Ruby object as far as the core looks at it. `Hash` is a Ruby Hash (its insertion order
      is not kept); `Record` is an ORM model object whose readers are its attributes. */
  datatype Value =
    | Nil
    | Bool(b: bool)
    | Int(i: int)
    | Str(s: string)
    | Sym(name: string)
    | List(items: seq<Value>)
    | Hash(entries: map<Value, Value>)
    | Record(attrs: map<string, Value>)

  /** A result row: a Hash with String keys. */
  type Row = map<string, Value>

  /** Ruby truthiness: everything but `nil` and `false`. */
  predicate Truthy(v: Value) {
    v != Nil && v != Bool(false)
  }

  /** Kernel#Array: `nil` gives `[]`, an Array itself, anything else a one-element Array. */
  function ArrayOf(v: Value): (r: seq<Value>)
    ensures v == Nil ==> r == []
    ensures v.List? ==> r == v.items
    ensures !v.Nil? && !v.List? ==> r == [v]
  {
    match v
    case Nil => []
    case List(items) => items
    case _ => [v]
  }

  /** `hash[key]` on a Ruby Hash: the stored value, or nil. */
  function Lookup(m: map<Value, Value>, key: Value): Value {
    if key in m then m[key] else Nil
  }

  /** `row[key]` on a result row. */
  function Get(row: Row, key: string): Value {
    if key in row then row[key] else Nil
  }

  /** A result row as a Ruby value (a Hash with String keys). */
  function RowValue(row: Row): (v: Value)
    ensures v.Hash? && forall k :: k in row <==> Str(k) in v.entries
    ensures forall k :: k in row ==> v.entries[Str(k)] == row[k]
  {
    Hash(map k | k in row :: Str(k) := row[k])
  }

  /** Ruby's `container[key]`: a Hash looks the key up, an Array takes an Integer index (negative
      counts from the end), a record reads an attribute, a String or Symbol takes a character
      index or a substring, an Integer gives a bit; `nil`, `true` and `false` have no `[]`. */
  function Index(container: Value, key: Value): (r: Result<Value>)
    ensures container.Hash? ==> r == Ok(Lookup(container.entries, key))
    ensures container.Nil? || container.Bool? ==> r == Err(NoMethodError("[]"))
    ensures container.Str? || container.Sym? || container.Int? ==> (r.Ok? <==> key.Int? || (key.Str? && !container.Int?))
  {
    match container
    case Hash(m) => Ok(Lookup(m, key))
    case List(items) => IndexItems(items, key)
    case Record(attrs) =>
      if key.Str? && key.s in attrs then Ok(attrs[key.s])
      else if key.Sym? && key.name in attrs then Ok(attrs[key.name])
      else Ok(Nil)
    case Str(str) => IndexString(str, key)
    case Sym(name) => IndexString(name, key)
    case Int(n) =>
      if key.Int? then Ok(Int(Bit(n, key.i))) else Err(TypeError(NoIntegerConversion))
    case _ => Err(NoMethodError("[]"))
  }

  const NoIntegerConversion := "no implicit conversion into Integer"

  /** Array#[] with one argument. */
  function IndexItems(items: seq<Value>, key: Value): (r: Result<Value>)
    ensures r.Ok? <==> key.Int?
  {
    if !key.Int? then Err(TypeError(NoIntegerConversion))
    else if 0 <= key.i < |items| then Ok(items[key.i])
    else if -|items| <= key.i < 0 then Ok(items[|items| + key.i])
    else Ok(Nil)
  }

  /** String#[] with one argument: an Integer picks the one-character String at that index
      (negative counts from the end, nil out of range); a String is returned when it occurs in
      the receiver, else nil. */
  function IndexString(str: string, key: Value): (r: Result<Value>)
    ensures r.Ok? <==> key.Int? || key.Str?
    ensures key.Str? ==> r == Ok(if Contains(str, key.s) then key else Nil)
  {
    match key
    case Int(i) =>
      if 0 <= i < |str| then Ok(Str([str[i]]))
      else if -|str| <= i < 0 then Ok(Str([str[|str| + i]]))
      else Ok(Nil)
    case Str(t) => Ok(if Contains(str, t) then key else Nil)
    case _ => Err(TypeError(NoIntegerConversion))
  }

  /** `t` occurs in `s` at index `k`. */
  predicate OccursAt(s: string, t: string, k: nat) {
    k + |t| <= |s| && s[k..k + |t|] == t
  }

  /** `t` occurs in `s` as a contiguous substring. */
  predicate Contains(s: string, t: string) {
    exists k :: 0 <= k <= |s| - |t| && OccursAt(s, t, k)
  }

  /** The characters of a String, each as a one-character String. */
  function Chars(s: string): (r: seq<Value>)
    ensures |r| == |s| && forall k :: 0 <= k < |s| ==> r[k] == Str([s[k]])
  {
    seq(|s|, k requires 0 <= k < |s| => Str([s[k]]))
  }

  /** A String answers an Integer index as the Array of its characters does. */
  lemma StringIndexesAsChars(s: string, i: int)
    ensures Index(Str(s), Int(i)) == Index(List(Chars(s)), Int(i))
    ensures Index(Sym(s), Int(i)) == Index(Str(s), Int(i))
  {
  }

  /** Integer#[]: bit `i` of the two's-complement form of `n`, 0 for a negative `i`. Dafny's
      `/` and `%` by 2 round down and give 0 or 1, as the arithmetic shift and the low bit do. */
  function Bit(n: int, i: int): (r: int)
    ensures 0 <= r <= 1
    decreases i
  {
    if i < 0 then 0
    else if i == 0 then n % 2
    else Bit(n / 2, i - 1)
  }

  function Pow2(k: nat): (r: nat)
    ensures r > 0
  {
    if k == 0 then 1 else 2 * Pow2(k - 1)
  }

  /** The number the lowest `k` bits of `n` spell. */
  function FromBits(n: int, k: nat): int
    decreases k
  {
    if k == 0 then 0 else Bit(n, 0) + 2 * FromBits(n / 2, k - 1)
  }

  /** The bits `Index` gives rebuild any non-negative number below 2^k. */
  lemma {:induction false} BitsRebuild(n: int, k: nat)
    requires 0 <= n < Pow2(k)
    ensures FromBits(n, k) == n
    decreases k
  {
    if k > 0 {
      BitsRebuild(n / 2, k - 1);
    }
  }

  /** Every bit of -1 is set, as in two's complement. */
  lemma {:induction false} MinusOneAllBits(i: nat)
    ensures Bit(-1, i) == 1
  {
    if i > 0 {
      MinusOneAllBits(i - 1);
    }
  }

  /** `5[0]` is 1, `5[1]` is 0, `-1[3]` is 1, `true[0]` raises NoMethodError, `"ab"[-1]` is "b". */
  lemma IndexExamples()
    ensures Index(Int(5), Int(0)) == Ok(Int(1)) && Index(Int(5), Int(1)) == Ok(Int(0))
    ensures Index(Int(-1), Int(3)) == Ok(Int(1)) && Index(Int(5), Int(-1)) == Ok(Int(0))
    ensures Index(Bool(true), Int(0)) == Err(NoMethodError("[]"))
    ensures Index(Str("ab"), Int(-1)) == Ok(Str("b")) && Index(Str("ab"), Int(2)) == Ok(Nil)
    ensures Index(Str("ab"), Str("b")) == Ok(Str("b")) && Index(Sym("ab"), Int(0)) == Ok(Str("a"))
  {
    assert Contains("ab", "b") by {
      assert OccursAt("ab", "b", 1);
    }
  }

  /** `receiver.send(name)` for a reader: only records answer, with their attribute. */
  function Send(receiver: Value, name: string): (r: Result<Value>)
    ensures r.Ok? <==> receiver.Record? && name in receiver.attrs
    ensures r.Ok? ==> r.value == receiver.attrs[name]
  {
    if receiver.Record? && name in receiver.attrs then Ok(receiver.attrs[name])
    else Err(NoMethodError(name))
  }

  ghost predicate NoDup<T>(s: seq<T>) {
    forall i, j :: 0 <= i < j < |s| ==> s[i] != s[j]
  }

  /** `list.push(x) unless list.include?(x)`, and Set#add on an insertion-ordered Set. */
  function AppendUnique<T(==,!new)>(s: seq<T>, x: T): (r: seq<T>)
    ensures NoDup(s) ==> NoDup(r)
    ensures forall y :: y in r <==> y in s || y == x
    ensures |s| <= |r| && r[..|s|] == s
  {
    if x in s then s else s + [x]
  }

  lemma AppendAssoc<T>(a: seq<T>, b: seq<T>, c: seq<T>)
    ensures (a + b) + c == a + (b + c)
  {
  }

  /** A prefix grows by the next element. */
  lemma TakeSnoc<T>(s: seq<T>, j: int)
    requires 0 <= j < |s|
    ensures s[..j + 1] == s[..j] + [s[j]]
  {
  }

  /** A suffix starts with its first element and goes on with the next suffix. */
  lemma DropCons<T>(s: seq<T>, i: int)
    requires 0 <= i < |s|
    ensures s[i..][0] == s[i] && s[i..][1..] == s[i + 1..]
  {
  }

  /** Folding AppendUnique over `xs`, starting from `acc`. */
  function AppendAll<T(==,!new)>(acc: seq<T>, xs: seq<T>): (r: seq<T>)
    decreases |xs|
  {
    if |xs| == 0 then acc else AppendAll(AppendUnique(acc, xs[0]), xs[1..])
  }

  lemma {:induction false} AppendAllProperties<T(!new)>(acc: seq<T>, xs: seq<T>)
    ensures NoDup(acc) ==> NoDup(AppendAll(acc, xs))
    ensures forall y :: y in AppendAll(acc, xs) <==> y in acc || y in xs
    ensures |acc| <= |AppendAll(acc, xs)| && AppendAll(acc, xs)[..|acc|] == acc
    decreases |xs|
  {
    if |xs| > 0 {
      var acc' := AppendUnique(acc, xs[0]);
      AppendAllProperties(acc', xs[1..]);
      assert forall y :: y in xs <==> y == xs[0] || y in xs[1..];
      var r := AppendAll(acc', xs[1..]);
      assert r[..|acc|] == r[..|acc'|][..|acc|];
    }
  }

  lemma {:induction false} AppendAllConcat<T(!new)>(acc: seq<T>, xs: seq<T>, ys: seq<T>)
    ensures AppendAll(acc, xs + ys) == AppendAll(AppendAll(acc, xs), ys)
    decreases |xs|
  {
    if |xs| > 0 {
      assert (xs + ys)[0] == xs[0];
      assert (xs + ys)[1..] == xs[1..] + ys;
      AppendAllConcat(AppendUnique(acc, xs[0]), xs[1..], ys);
    } else {
      assert xs + ys == ys;
    }
  }

  /** One more step of the fold over a prefix of `xs`. */
  lemma AppendAllStep<T(!new)>(acc: seq<T>, xs: seq<T>, j: int)
    requires 0 <= j < |xs|
    ensures AppendAll(acc, xs[..j + 1]) == AppendUnique(AppendAll(acc, xs[..j]), xs[j])
  {
    assert xs[..j + 1] == xs[..j] + [xs[j]];
    AppendAllConcat(acc, xs[..j], [xs[j]]);
    AppendAllSingle(AppendAll(acc, xs[..j]), xs[j]);
  }

  lemma AppendAllSingle<T(!new)>(acc: seq<T>, x: T)
    ensures AppendAll(acc, [x]) == AppendUnique(acc, x)
  {
    assert [x][1..] == [];
  }

  /** Array#uniq: keeps the first occurrence of every element, in order. */
  function Uniq<T(==,!new)>(s: seq<T>): (r: seq<T>)
    ensures NoDup(r)
    ensures forall y :: y in r <==> y in s
  {
    AppendAllProperties([], s);
    AppendAll([], s)
  }

  /** `(a + b).uniq` when `a` has no duplicates keeps `a` as it is, in front. */
  lemma UniqKeepsPrefix<T(!new)>(a: seq<T>, b: seq<T>)
    requires NoDup(a)
    ensures |a| <= |Uniq(a + b)| && Uniq(a + b)[..|a|] == a
    ensures Uniq(a + b) == AppendAll(a, b)
  {
    AppendAllConcat([], a, b);
    NoDupAppendAllIdentity([], a);
    assert AppendAll([], a) == a;
    AppendAllProperties(a, b);
  }

  lemma {:induction false} NoDupAppendAllIdentity<T(!new)>(acc: seq<T>, xs: seq<T>)
    requires NoDup(acc + xs)
    ensures AppendAll(acc, xs) == acc + xs
    decreases |xs|
  {
    if |xs| > 0 {
      assert xs[0] !in acc by {
        assert forall i :: 0 <= i < |acc| ==> (acc + xs)[i] == acc[i];
        assert (acc + xs)[|acc|] == xs[0];
      }
      assert AppendUnique(acc, xs[0]) == acc + [xs[0]];
      assert acc + [xs[0]] + xs[1..] == acc + xs;
      NoDupAppendAllIdentity(acc + [xs[0]], xs[1..]);
    }
  }
}
