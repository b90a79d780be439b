/**
 A Compact `List` field: nodes `[head, tail, len]`, read eagerly from a state
 value or lazily along a query path the node limits to 16 keys.
 */
module Lists {
  import opened Wrappers

  /** A state value; `V` is the content of a cell. */
  datatype StateValue<V> =
    | Null
    | Cell(value: V)
    | MapValue
    | Array(items: seq<StateValue<V>>)
    | BoundedMerkleTree

  datatype StateError = UnexpectedVariant(expected: string, actual: string) | IndexOutOfBounds(index: nat) | Conversion

  const LIST_HEAD: nat := 0
  const LIST_TAIL: nat := 1
  const LIST_LENGTH: nat := 2
  const MAX_QUERY_PATH_DEPTH: nat := 16

  function VariantName<V>(sv: StateValue<V>): (name: string) {
    match sv
    case Null => "Null"
    case Cell(_) => "Cell"
    case MapValue => "Map"
    case Array(_) => "Array"
    case BoundedMerkleTree => "BoundedMerkleTree"
  }

  function CellAs<V, T>(sv: StateValue<V>, convert: V -> Option<T>): (r: Result<T, StateError>) {
    if !sv.Cell? then Err(UnexpectedVariant("Cell", VariantName(sv)))
    else
      var t := convert(sv.value);
      if t.Some? then Ok(t.value) else Err(Conversion)
  }

  function GetField<V>(sv: StateValue<V>, index: nat): (r: Result<StateValue<V>, StateError>) {
    if !sv.Array? then Err(UnexpectedVariant("Array", VariantName(sv)))
    else if index < |sv.items| then Ok(sv.items[index])
    else Err(IndexOutOfBounds(index))
  }

  /** The value at the end of the first `n` steps of `path`. */
  function FieldPath<V>(sv: StateValue<V>, path: seq<nat>, n: nat): (r: Result<StateValue<V>, StateError>)
    requires n <= |path|
  {
    if n == 0 then Ok(sv)
    else
      var at := FieldPath(sv, path, n - 1);
      if at.Err? then at else GetField(at.value, path[n - 1])
  }

  lemma {:induction false} FieldPathStops<V>(sv: StateValue<V>, path: seq<nat>, n: nat, m: nat)
    requires n <= m <= |path| && FieldPath(sv, path, n).Err?
    ensures FieldPath(sv, path, m) == FieldPath(sv, path, n)
  {
    if n < m {
      FieldPathStops(sv, path, n, m - 1);
    }
  }

  /** `get_field_path`. */
  method GetFieldPath<V>(sv: StateValue<V>, path: seq<nat>) returns (r: Result<StateValue<V>, StateError>)
    ensures r == FieldPath(sv, path, |path|)
  {
    var current := sv;
    for i := 0 to |path|
      invariant FieldPath(sv, path, i) == Ok(current)
    {
      var next := GetField(current, path[i]);
      if next.Err? {
        FieldPathStops(sv, path, i + 1, |path|);
        return next;
      }
      current := next.value;
    }
    return Ok(current);
  }

  /** A path is its parts, one after the other. */
  lemma {:induction false} FieldPathConcat<V>(sv: StateValue<V>, a: seq<nat>, b: seq<nat>, n: nat)
    requires n <= |b|
    ensures var front := FieldPath(sv, a, |a|);
            FieldPath(sv, a + b, |a| + n) == if front.Err? then front else FieldPath(front.value, b, n)
  {
    if n == 0 {
      FieldPathPrefix(sv, a, b, |a|);
    } else {
      FieldPathConcat(sv, a, b, n - 1);
    }
  }

  lemma {:induction false} FieldPathPrefix<V>(sv: StateValue<V>, a: seq<nat>, b: seq<nat>, n: nat)
    requires n <= |a|
    ensures FieldPath(sv, a + b, n) == FieldPath(sv, a, n)
  {
    if n > 0 {
      FieldPathPrefix(sv, a, b, n - 1);
    }
  }

  // ---------------------------------------------------------------------------
  // The eager accessor
  // ---------------------------------------------------------------------------

  /** How cells convert: to a length, and to an element. */
  datatype Codec<!V, +T> = Codec(length: V -> Option<nat>, element: V -> Option<T>)

  datatype ListAccessor<V> = ListAccessor(node: StateValue<V>, len: nat)

  function FromState<V, T>(sv: StateValue<V>, codec: Codec<V, T>): (r: Result<ListAccessor<V>, StateError>) {
    var slot := GetField(sv, LIST_LENGTH);
    if slot.Err? then Err(slot.error)
    else
      var len := CellAs(slot.value, codec.length);
      if len.Err? then Err(len.error) else Ok(ListAccessor(sv, len.value))
  }

  function ListHead<V, T>(node: StateValue<V>, codec: Codec<V, T>): (r: Result<T, StateError>) {
    var head := GetField(node, LIST_HEAD);
    if head.Err? then Err(head.error) else CellAs(head.value, codec.element)
  }

  /** The node after `n` tails. */
  function Tails<V>(node: StateValue<V>, n: nat): (r: Result<StateValue<V>, StateError>) {
    if n == 0 then Ok(node)
    else
      var before := Tails(node, n - 1);
      if before.Err? then before else GetField(before.value, LIST_TAIL)
  }

  function ElementAfter<V, T>(node: StateValue<V>, n: nat, codec: Codec<V, T>): (r: Result<T, StateError>) {
    var at := Tails(node, n);
    if at.Err? then Err(at.error) else ListHead(at.value, codec)
  }

  function Get<V, T>(list: ListAccessor<V>, index: nat, codec: Codec<V, T>): (r: Option<Result<T, StateError>>) {
    if index >= list.len then None else Some(ElementAfter(list.node, index, codec))
  }

  lemma {:induction false} TailsStop<V>(node: StateValue<V>, n: nat, m: nat)
    requires n <= m && Tails(node, n).Err?
    ensures Tails(node, m) == Tails(node, n)
  {
    if n < m {
      TailsStop(node, n, m - 1);
    }
  }

  /**
   `iter`, collected: on any value, malformed or not, it yields `get(0)`, `get(1)`
   and so on, up to the length, and ends after the first error.
   */
  method Iter<V, T>(list: ListAccessor<V>, codec: Codec<V, T>) returns (items: seq<Result<T, StateError>>)
    ensures |items| <= list.len
    ensures forall i :: 0 <= i < |items| ==> Get(list, i, codec) == Some(items[i])
    ensures forall i :: 0 <= i < |items| - 1 ==> items[i].Ok?
    ensures |items| < list.len ==> items != [] && items[|items| - 1].Err?
  {
    items := [];
    var next: Option<Result<StateValue<V>, StateError>> := Some(Ok(list.node));
    for i := 0 to list.len
      invariant |items| == i
      invariant forall k :: 0 <= k < i ==> Get(list, k, codec) == Some(items[k])
      invariant next.Some? ==> (forall k :: 0 <= k < i ==> items[k].Ok?) && next.value == Tails(list.node, i)
      invariant next.None? ==> i > 0 && items[i - 1].Err? && forall k :: 0 <= k < i - 1 ==> items[k].Ok?
    {
      if next.None? {
        return;
      }
      var taken := next.value;
      next := None;
      match taken {
        case Err(e) =>
          items := items + [Err(e)];
        case Ok(node) =>
          var head := ListHead(node, codec);
          if head.Ok? {
            next := Some(GetField(node, LIST_TAIL));
          }
          items := items + [head];
      }
    }
  }

  // ---------------------------------------------------------------------------
  // The lazy path
  // ---------------------------------------------------------------------------

  datatype ListElementPath = ListElementPath(path: seq<nat>, tailsLeft: Option<nat>)

  method Repeat(path: seq<nat>, key: nat, n: nat) returns (longer: seq<nat>)
    ensures longer == path + seq(n, _ => key)
  {
    longer := path;
    for i := 0 to n
      invariant longer == path + seq(i, _ => key)
    {
      longer := longer + [key];
    }
  }

  /** `list_length_path`. The node takes it exactly when the field has at most 15 keys. */
  function ListLengthPath(field: seq<nat>): (path: seq<nat>)
    ensures |path| <= MAX_QUERY_PATH_DEPTH <==> |field| < MAX_QUERY_PATH_DEPTH
  {
    field + [LIST_LENGTH]
  }

  /** The depth left for tails below a field. */
  function MaxTails(field: seq<nat>): (n: nat) {
    if |field| <= MAX_QUERY_PATH_DEPTH then MAX_QUERY_PATH_DEPTH - |field| else 0
  }

  /** What `list_element_path` promises: a path the node takes, to the element or to a node on the way. */
  ghost predicate PathsTo(p: ListElementPath, field: seq<nat>, index: nat) {
    && (|field| <= MAX_QUERY_PATH_DEPTH ==> |p.path| <= MAX_QUERY_PATH_DEPTH)
    && match p.tailsLeft
       case None => p.path == field + (seq(index, _ => LIST_TAIL) + [LIST_HEAD])
       case Some(n) => n <= index && p.path == field + seq(index - n, _ => LIST_TAIL)
  }

  /** `list_element_path`. It stops early only where one more key would be refused. */
  method ElementPath(field: seq<nat>, index: nat) returns (p: ListElementPath)
    ensures PathsTo(p, field, index)
    ensures p.tailsLeft.None? <==> |field| + index + 1 <= MAX_QUERY_PATH_DEPTH
    ensures p.tailsLeft.Some? && |field| <= MAX_QUERY_PATH_DEPTH ==> |p.path| == MAX_QUERY_PATH_DEPTH
  {
    var path := field;
    var maxTails := MaxTails(field);
    if index < maxTails {
      path := Repeat(path, LIST_TAIL, index);
      path := path + [LIST_HEAD];
      return ListElementPath(path, None);
    }
    path := Repeat(path, LIST_TAIL, maxTails);
    return ListElementPath(path, Some(index - maxTails));
  }

  /** The read of a path: the node follows it, and the client finishes the walk in the value it gets. */
  function LazyRead<V, T>(root: StateValue<V>, p: ListElementPath, codec: Codec<V, T>)
    : (r: Option<Result<T, StateError>>)
  {
    var at := FieldPath(root, p.path, |p.path|);
    if at.Err? then Some(Err(at.error))
    else match p.tailsLeft
      case None => Some(CellAs(at.value, codec.element))
      case Some(n) =>
        var list := FromState(at.value, codec);
        if list.Err? then Some(Err(list.error)) else Get(list.value, n, codec)
  }

  lemma {:induction false} PathOfTails<V>(node: StateValue<V>, keys: seq<nat>, n: nat)
    requires n <= |keys| && forall i :: 0 <= i < n ==> keys[i] == LIST_TAIL
    ensures FieldPath(node, keys, n) == Tails(node, n)
  {
    if n > 0 {
      PathOfTails(node, keys, n - 1);
    }
  }

  lemma {:induction false} TailsOfTails<V>(node: StateValue<V>, m: nat, n: nat)
    requires Tails(node, m).Ok?
    ensures Tails(node, m + n) == Tails(Tails(node, m).value, n)
  {
    if n > 0 {
      TailsOfTails(node, m, n - 1);
    }
  }

  lemma HeadAfterTails<V>(node: StateValue<V>, keys: seq<nat>, n: nat)
    requires |keys| == n + 1 && keys[n] == LIST_HEAD && forall i :: 0 <= i < n ==> keys[i] == LIST_TAIL
    ensures var at := Tails(node, n);
            FieldPath(node, keys, |keys|) == if at.Err? then at else GetField(at.value, LIST_HEAD)
  {
    PathOfTails(node, keys, n);
  }

  /** A path that reaches the element reads what the eager walk reads, on any value, errors included. */
  lemma FullPathReads<V, T>(root: StateValue<V>, field: seq<nat>, index: nat, p: ListElementPath, codec: Codec<V, T>)
    requires PathsTo(p, field, index) && p.tailsLeft.None?
    ensures var node := FieldPath(root, field, |field|);
            LazyRead(root, p, codec)
            == Some(if node.Err? then Err(node.error) else ElementAfter(node.value, index, codec))
  {
    hide FieldPath, Tails;
    var keys := seq(index, _ => LIST_TAIL) + [LIST_HEAD];
    FieldPathConcat(root, field, keys, |keys|);
    var node := FieldPath(root, field, |field|);
    if node.Ok? {
      HeadAfterTails(node.value, keys, index);
    }
  }

  /**
   A path that stops at a node reads what the eager walk reads, unless the node it
   got claims fewer elements than are left to walk, or no length at all.
   */
  lemma CutPathReads<V, T>(
      root: StateValue<V>, field: seq<nat>, index: nat, n: nat, p: ListElementPath, codec: Codec<V, T>)
    requires PathsTo(p, field, index) && p.tailsLeft == Some(n)
    requires FieldPath(root, field, |field|).Ok?
    ensures var node := FieldPath(root, field, |field|).value;
            var at := Tails(node, index - n);
            && (at.Err? ==> LazyRead(root, p, codec) == Some(ElementAfter(node, index, codec)))
            && (at.Ok? ==>
                  var list := FromState(at.value, codec);
                  LazyRead(root, p, codec)
                  == if list.Err? then Some(Err(list.error))
                     else if n >= list.value.len then None
                     else Some(ElementAfter(node, index, codec)))
  {
    var node := FieldPath(root, field, |field|).value;
    var keys := seq(index - n, _ => LIST_TAIL);
    FieldPathConcat(root, field, keys, |keys|);
    PathOfTails(node, keys, index - n);
    if Tails(node, index - n).Ok? {
      TailsOfTails(node, index - n, n);
    } else {
      TailsStop(node, index - n, index);
    }
  }

  /** A list of `len` elements: each node holds a cell, the node of the rest, and the count. */
  ghost predicate IsList<V, T>(node: StateValue<V>, len: nat, codec: Codec<V, T>)
    decreases len
  {
    && node.Array? && |node.items| == 3
    && node.items[LIST_LENGTH].Cell? && codec.length(node.items[LIST_LENGTH].value) == Some(len)
    && (len > 0 ==>
          && node.items[LIST_HEAD].Cell? && codec.element(node.items[LIST_HEAD].value).Some?
          && IsList(node.items[LIST_TAIL], len - 1, codec))
  }

  lemma {:induction false} TailIsList<V, T>(node: StateValue<V>, len: nat, n: nat, codec: Codec<V, T>)
    requires IsList(node, len, codec) && n <= len
    ensures Tails(node, n).Ok? && IsList(Tails(node, n).value, len - n, codec)
  {
    if n > 0 {
      TailIsList(node, len, n - 1, codec);
    }
  }

  lemma ListIsRead<V, T>(node: StateValue<V>, len: nat, codec: Codec<V, T>)
    requires IsList(node, len, codec)
    ensures FromState(node, codec) == Ok(ListAccessor(node, len))
    ensures len > 0 ==> ListHead(node, codec).Ok?
  {
  }

  /**
   For every well-formed list, every field path and every index below the length:
   following the path, and then the rest of the walk, yields the element that the
   eager `get` yields.
   */
  lemma LazyIsEager<V, T>(
      root: StateValue<V>, field: seq<nat>, len: nat, index: nat, p: ListElementPath, codec: Codec<V, T>)
    requires FieldPath(root, field, |field|).Ok? && IsList(FieldPath(root, field, |field|).value, len, codec)
    requires index < len && PathsTo(p, field, index)
    ensures var node := FieldPath(root, field, |field|).value;
            && FromState(node, codec) == Ok(ListAccessor(node, len))
            && LazyRead(root, p, codec) == Get(ListAccessor(node, len), index, codec)
            && LazyRead(root, p, codec).Some? && LazyRead(root, p, codec).value.Ok?
  {
    var node := FieldPath(root, field, |field|).value;
    ListIsRead(node, len, codec);
    TailIsList(node, len, index, codec);
    ListIsRead(Tails(node, index).value, len - index, codec);
    match p.tailsLeft
    case None => FullPathReads(root, field, index, p, codec);
    case Some(n) =>
      CutPathReads(root, field, index, n, p, codec);
      TailIsList(node, len, index - n, codec);
      ListIsRead(Tails(node, index - n).value, len - (index - n), codec);
  }

  // ---------------------------------------------------------------------------
  // The elements come back
  // ---------------------------------------------------------------------------

  /** The nodes a contract keeps for a list of cells; `count` is the cell of a length. */
  function ListOf<V>(cells: seq<V>, count: nat -> V): (node: StateValue<V>) {
    if cells == [] then Array([Null, Null, Cell(count(0))])
    else Array([Cell(cells[0]), ListOf(cells[1..], count), Cell(count(|cells|))])
  }

  /** What an element cell reads as. */
  function Converted<V, T>(cell: V, codec: Codec<V, T>): (r: Result<T, StateError>) {
    var t := codec.element(cell);
    if t.Some? then Ok(t.value) else Err(Conversion)
  }

  lemma {:induction false} TailsOfList<V>(cells: seq<V>, count: nat -> V, n: nat)
    requires n <= |cells|
    ensures Tails(ListOf(cells, count), n) == Ok(ListOf(cells[n..], count))
  {
    if n == 0 {
      assert cells[0..] == cells;
    } else {
      TailsOfList(cells, count, n - 1);
      assert cells[n - 1..][1..] == cells[n..];
    }
  }

  /**
   A list reads back as the cells it was made of: its length, each element in its
   place, whether it converts or not, and nothing beyond the length.
   */
  lemma ListComesBack<V, T>(cells: seq<V>, count: nat -> V, index: nat, codec: Codec<V, T>)
    requires forall n: nat :: codec.length(count(n)) == Some(n)
    ensures var node := ListOf(cells, count);
            && FromState(node, codec) == Ok(ListAccessor(node, |cells|))
            && Get(ListAccessor(node, |cells|), index, codec)
               == if index < |cells| then Some(Converted(cells[index], codec)) else None
  {
    if index < |cells| {
      TailsOfList(cells, count, index);
    }
  }

  /** So does the lazy read, along any path to the element, below any field. */
  lemma LazyComesBack<V, T>(
      root: StateValue<V>, field: seq<nat>, cells: seq<V>, count: nat -> V, index: nat, p: ListElementPath,
      codec: Codec<V, T>)
    requires forall n: nat :: codec.length(count(n)) == Some(n)
    requires FieldPath(root, field, |field|) == Ok(ListOf(cells, count)) && index < |cells| && PathsTo(p, field, index)
    ensures LazyRead(root, p, codec) == Some(Converted(cells[index], codec))
  {
    hide FieldPath, LazyRead;
    ListComesBack(cells, count, index, codec);
    match p.tailsLeft
    case None => FullPathReads(root, field, index, p, codec);
    case Some(n) =>
      CutPathReads(root, field, index, n, p, codec);
      TailsOfList(cells, count, index - n);
      ListComesBack(cells[index - n..], count, n, codec);
  }
}
