/** The values a decoder can hand back: PHP arrays (ordered key/value),
    objects (property tables) and scalars, plus the PHP built-ins the
    response uses on them (empty(), isset(), the array-pointer family). */
module PhpValues {
  import opened Results
  import opened PhpArrays

  /** An array key or property name. */
  datatype ArrayKey = IntKey(i: int) | StrKey(s: string)

  datatype Value =
    | Null
    | Bool(b: bool)
    | Int(n: int)
    | Str(s: string)
    | Arr(entries: seq<(ArrayKey, Value)>)
    | Obj(entries: seq<(ArrayKey, Value)>)

  /** A decoder callback such as json_decode or unserialize. */
  type Decoder = string -> Value

  /** PHP's empty(): null, false, 0, "", "0" and the empty array; an object
      is never empty. */
  predicate IsEmpty(v: Value) {
    match v
    case Null => true
    case Bool(b) => !b
    case Int(n) => n == 0
    case Str(s) => s == "" || s == "0"
    case Arr(e) => e == []
    case Obj(_) => false
  }

  predicate IsCollection(v: Value) {
    v.Arr? || v.Obj?
  }

  /** The table the array pointer walks: an array's elements or an object's
      properties; nothing for a scalar. */
  function Entries(v: Value): seq<(ArrayKey, Value)> {
    if IsCollection(v) then v.entries else []
  }

  /** isset($v[$k]) on an array, isset($v->{$k}) otherwise: the key is present
      and its value is not null. */
  predicate IsSet(v: Value, k: ArrayKey) {
    var found := Lookup(Entries(v), k);
    found.Some? && found.value != Null
  }

  /** What ArrayAccess lookup yields: null unless the key is set, the stored
      value otherwise. */
  function OffsetValue(v: Value, k: ArrayKey): (r: Value)
    ensures r == Null <==> !IsSet(v, k)
    ensures IsSet(v, k) ==> Lookup(Entries(v), k) == Some(r)
  {
    if !IsSet(v, k) then Null else Lookup(Entries(v), k).value
  }

  // ---------------------------------------------------------------------------
  // The internal array pointer, as an explicit cursor into Entries(v).

  /** key(): the key under the cursor, None (null) past the end or on a scalar. */
  function KeyAt(v: Value, cursor: nat): Option<ArrayKey> {
    if cursor < |Entries(v)| then Some(Entries(v)[cursor].0) else None
  }

  /** current(): the value under the cursor, false past the end of a
      collection, null on a scalar (PHP 7 warns and returns null). */
  function CurrentAt(v: Value, cursor: nat): Value {
    if !IsCollection(v) then Null
    else if cursor < |Entries(v)| then Entries(v)[cursor].1
    else Bool(false)
  }

  /** next(): one step on, staying put once past the end. */
  function NextAt(v: Value, cursor: nat): nat {
    if cursor < |Entries(v)| then cursor + 1 else cursor
  }

  /** Response::valid(): is_array($v) && key($v) !== null. */
  predicate ValidAt(v: Value, cursor: nat) {
    v.Arr? && KeyAt(v, cursor).Some?
  }

  /** The cursor after n calls of next(). */
  function Walk(v: Value, cursor: nat, n: nat): nat
    decreases n
  {
    if n == 0 then cursor else Walk(v, NextAt(v, cursor), n - 1)
  }

  /** valid() holds exactly on an array whose cursor is on an element; objects
      and scalars iterate as empty. */
  lemma ValidMeansOnElement(v: Value, cursor: nat)
    ensures ValidAt(v, cursor) <==> v.Arr? && cursor < |v.entries|
    ensures ValidAt(v, cursor) ==>
      KeyAt(v, cursor) == Some(v.entries[cursor].0) && CurrentAt(v, cursor) == v.entries[cursor].1
    ensures !v.Arr? ==> !ValidAt(v, cursor)
  {
  }

  /** Starting from the first element, n calls of next() reach element n, and
      the cursor never moves past the end. */
  lemma {:induction false} WalkFromStart(v: Value, c: nat, n: nat)
    requires c <= |Entries(v)|
    ensures Walk(v, c, n) == if c + n <= |Entries(v)| then c + n else |Entries(v)|
    decreases n
  {
    if n > 0 {
      WalkFromStart(v, NextAt(v, c), n - 1);
    }
  }

  /** Iterating an array from rewind(): the i-th step is valid and shows the
      i-th key and value, and after the last element valid() is false for good. */
  lemma IterationOrder(v: Value, i: nat, extra: nat)
    requires v.Arr?
    ensures i < |v.entries| ==>
      ValidAt(v, Walk(v, 0, i)) && KeyAt(v, Walk(v, 0, i)) == Some(v.entries[i].0) &&
      CurrentAt(v, Walk(v, 0, i)) == v.entries[i].1
    ensures !ValidAt(v, Walk(v, 0, |v.entries| + extra))
  {
    WalkFromStart(v, 0, i);
    WalkFromStart(v, 0, |v.entries| + extra);
  }

  /** A value with a set key is never empty, so the decode cache keeps it. */
  lemma SetKeyMeansNonEmpty(v: Value, k: ArrayKey)
    requires IsSet(v, k)
    ensures !IsEmpty(v)
  {
  }
}
