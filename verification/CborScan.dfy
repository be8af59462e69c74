/** The bounded iterative scan of verify-rs/src/cbor_wire.rs, refined against a recursive decoder. */
module CborScan {
  import opened Bytes
  import opened CborHead
  import opened CborWire

  // ----- measures of a value

  /** Data items a value is made of, map keys included. */
  function Items(v: Value): (n: nat)
    ensures n >= 1
    decreases v, 1
  {
    match v
    case Array(items) => 1 + ItemsAll(items)
    case Map(entries) => 1 + ItemsEntries(entries)
    case _ => 1
  }

  function ItemsAll(items: seq<Value>): nat
    decreases items, 0
  {
    if items == [] then 0 else Items(items[0]) + ItemsAll(items[1..])
  }

  function ItemsEntry(e: Entry): nat
    decreases e
  {
    Items(e.key) + Items(e.value)
  }

  function ItemsEntries(entries: seq<Entry>): nat
    decreases entries, 0
  {
    if entries == [] then 0 else ItemsEntry(entries[0]) + ItemsEntries(entries[1..])
  }

  /** Levels of non-empty containers around the deepest member. */
  function Depth(v: Value): nat
    decreases v, 1
  {
    match v
    case Array(items) => if items == [] then 0 else 1 + DepthAll(items)
    case Map(entries) => if entries == [] then 0 else 1 + DepthEntries(entries)
    case _ => 0
  }

  function Max(a: nat, b: nat): nat {
    if a < b then b else a
  }

  function DepthAll(items: seq<Value>): nat
    decreases items, 0
  {
    if items == [] then 0 else Max(Depth(items[0]), DepthAll(items[1..]))
  }

  function DepthEntry(e: Entry): nat
    decreases e
  {
    Max(Depth(e.key), Depth(e.value))
  }

  function DepthEntries(entries: seq<Entry>): nat
    decreases entries, 0
  {
    if entries == [] then 0 else Max(DepthEntry(entries[0]), DepthEntries(entries[1..]))
  }

  // ----- the recursive decoder

  function PairUp(items: seq<Value>): (r: seq<Entry>)
    ensures 2 * |r| <= |items| <= 2 * |r| + 1
  {
    if |items| < 2 then [] else [Entry(items[0], items[1])] + PairUp(items[2..])
  }

  /** One well-formed item at offset i that nests at most `depth` non-empty containers. */
  function Parse(data: Bytes, i: nat, depth: nat): (r: Option<(Value, nat)>)
    requires i <= |data|
    ensures r.Some? ==> i < r.value.1 <= |data|
    decreases |data| - i, 0
  {
    var head := PeekHead(data, i);
    if head.None? then None
    else
      var HeadAt(major, arg, next) := head.value;
      match major
      case 0 => Some((Int(arg), next))
      case 1 => Some((Int(-1 - arg), next))
      case 2 => if arg <= |data| - next then Some((ByteString(data[next..next + arg]), next + arg)) else None
      case 3 => if arg <= |data| - next then Some((Text(data[next..next + arg]), next + arg)) else None
      case 4 =>
        var members := ParseMembers(data, next, arg, depth);
        if members.None? then None else Some((Array(members.value.0), members.value.1))
      case 5 =>
        var members := ParseMembers(data, next, 2 * arg, depth);
        if members.None? then None else Some((Map(PairUp(members.value.0)), members.value.1))
      case _ => Some((if data[i] == 0xf6 then Null else Bool(data[i] == 0xf5), next))
  }

  /** The members of a container: every one needs a byte, and a non-empty container needs a level. */
  function ParseMembers(data: Bytes, i: nat, count: nat, depth: nat): (r: Option<(seq<Value>, nat)>)
    requires i <= |data|
    ensures r.Some? ==> i <= r.value.1 <= |data| && |r.value.0| == count
    decreases |data| - i, count + 2
  {
    if count >= U64 || count > |data| - i then None
    else if count == 0 then Some(([], i))
    else if depth == 0 then None
    else ParseMany(data, i, count, depth - 1)
  }

  function ParseMany(data: Bytes, i: nat, count: nat, depth: nat): (r: Option<(seq<Value>, nat)>)
    requires i <= |data|
    ensures r.Some? ==> i <= r.value.1 <= |data| && |r.value.0| == count
    decreases |data| - i, count + 1
  {
    if count == 0 then Some(([], i))
    else
      var first := Parse(data, i, depth);
      if first.None? then None
      else
        var rest := ParseMany(data, first.value.1, count - 1, depth);
        if rest.None? then None else Some(([first.value.0] + rest.value.0, rest.value.1))
  }

  lemma {:induction false} PairUpItems(items: seq<Value>)
    requires |items| % 2 == 0
    ensures ItemsEntries(PairUp(items)) == ItemsAll(items)
    ensures DepthEntries(PairUp(items)) == DepthAll(items)
    decreases |items|
  {
    if items != [] {
      PairUpItems(items[2..]);
      assert items[1..][1..] == items[2..];
      assert PairUp(items)[1..] == PairUp(items[2..]);
    }
  }

  /** A parsed item keeps within the depth it was given. */
  lemma {:induction false} ParseDepth(data: Bytes, i: nat, depth: nat)
    requires i <= |data|
    ensures Parse(data, i, depth).Some? ==> Depth(Parse(data, i, depth).value.0) <= depth
    decreases |data| - i, 0
  {
    hide PeekHead;
    var head := PeekHead(data, i);
    if head.Some? && Parse(data, i, depth).Some? {
      var HeadAt(major, arg, next) := head.value;
      var count := if major == 4 then arg else 2 * arg;
      if (major == 4 || major == 5) && 0 < count && depth > 0 {
        ParseManyDepth(data, next, count, depth - 1);
        if major == 5 {
          PairUpItems(ParseMany(data, next, count, depth - 1).value.0);
        }
      }
    }
  }

  lemma {:induction false} ParseManyDepth(data: Bytes, i: nat, count: nat, depth: nat)
    requires i <= |data|
    ensures ParseMany(data, i, count, depth).Some? ==> DepthAll(ParseMany(data, i, count, depth).value.0) <= depth
    decreases |data| - i, count + 1
  {
    if count > 0 && ParseMany(data, i, count, depth).Some? {
      ParseDepth(data, i, depth);
      var (v, next) := Parse(data, i, depth).value;
      ParseManyDepth(data, next, count - 1, depth);
      var all := ParseMany(data, i, count, depth).value.0;
      assert all[1..] == ParseMany(data, next, count - 1, depth).value.0;
    }
  }

  // ----- what a stack of remaining counts still has to read

  datatype Extent = Extent(next: nat, items: nat)

  /** The counts left after the item just read completes; the source's complete_item. */
  function Complete(stack: seq<nat>): (r: seq<nat>)
    requires forall k :: 0 <= k < |stack| ==> stack[k] > 0
    ensures |r| <= |stack| && forall k :: 0 <= k < |r| ==> r[k] > 0
  {
    if stack == [] then []
    else
      var last := |stack| - 1;
      if stack[last] > 1 then stack[..last] + [stack[last] - 1] else Complete(stack[..last])
  }

  ghost predicate Positive(stack: seq<nat>) {
    forall k :: 0 <= k < |stack| ==> stack[k] > 0
  }

  /** Everything the stack announces, read from offset i. */
  ghost function Rest(data: Bytes, i: nat, stack: seq<nat>, maxDepth: nat): Option<Extent>
    requires i <= |data| && Positive(stack) && |stack| <= maxDepth
    decreases |stack|
  {
    if stack == [] then Some(Extent(i, 0))
    else
      var last := |stack| - 1;
      var many := ParseMany(data, i, stack[last], maxDepth - |stack|);
      if many.None? then None
      else Add(ItemsAll(many.value.0), Rest(data, many.value.1, Complete(stack[..last]), maxDepth))
  }

  ghost function Add(n: nat, e: Option<Extent>): Option<Extent> {
    if e.None? then None else Some(Extent(e.value.next, n + e.value.items))
  }

  /** The item at i and then everything the stack announces after it. */
  ghost function Todo(data: Bytes, i: nat, stack: seq<nat>, maxDepth: nat): Option<Extent>
    requires i <= |data| && Positive(stack) && |stack| <= maxDepth
  {
    var item := Parse(data, i, maxDepth - |stack|);
    if item.None? then None
    else Add(Items(item.value.0), Rest(data, item.value.1, Complete(stack), maxDepth))
  }

  lemma {:induction false} RestIsTodo(data: Bytes, i: nat, stack: seq<nat>, maxDepth: nat)
    requires i <= |data| && Positive(stack) && 0 < |stack| <= maxDepth
    ensures Rest(data, i, stack, maxDepth) == Todo(data, i, stack, maxDepth)
  {
    hide Parse;
    var last := |stack| - 1;
    var item := Parse(data, i, maxDepth - |stack|);
    if item.Some? {
      var (v, next) := item.value;
      var tail := ParseMany(data, next, stack[last] - 1, maxDepth - |stack|);
      if tail.Some? {
        assert ([v] + tail.value.0)[1..] == tail.value.0;
      }
      if stack[last] > 1 {
        var after := stack[..last] + [stack[last] - 1];
        assert after[..last] == stack[..last];
      } else {
        assert ItemsAll([v]) == Items(v);
      }
    }
  }

  // ----- the scanner

  method ScanString(data: Bytes, i: nat, arg: nat) returns (r: Option<nat>)
    requires i <= |data|
    ensures r == if arg <= |data| - i then Some(i + arg) else None
  {
    var remaining := |data| - i;
    if arg > remaining {
      return None;
    }
    r := Some(i + arg);
  }

  /** Some(true) when a non-empty container was opened, Some(false) when it is empty. */
  method ScanContainer(data: Bytes, i: nat, major: nat, arg: nat, stack: seq<nat>, maxDepth: nat)
    returns (r: Option<bool>, after: seq<nat>)
    requires i <= |data| && major in {4, 5} && |stack| <= maxDepth
    ensures var count := if major == 4 then arg else 2 * arg;
            && (r.None? <==> count >= U64 || count > |data| - i || (count > 0 && |stack| >= maxDepth))
            && (r.Some? ==> r.value == (count > 0) && after == if count > 0 then stack + [count] else stack)
  {
    after := stack;
    var count := if major == 4 then arg else 2 * arg;
    if count >= U64 {
      return None, after;
    }
    if count > |data| - i {
      return None, after;
    }
    if count == 0 {
      return Some(false), after;
    }
    if |stack| >= maxDepth {
      return None, after;
    }
    after := after + [count];
    r := Some(true);
  }

  method CompleteItem(stack0: seq<nat>) returns (finished: bool, stack: seq<nat>)
    requires Positive(stack0)
    ensures stack == Complete(stack0) && finished == (stack == [])
  {
    stack := stack0;
    while stack != []
      invariant Positive(stack) && Complete(stack) == Complete(stack0)
      decreases |stack|
    {
      var last := |stack| - 1;
      var top := stack[last] - 1;
      if top > 0 {
        return false, stack[..last] + [top];
      }
      stack := stack[..last];
    }
    finished := true;
  }

  /** The scan, restated: the item at the start of the data, if it is within both bounds. */
  function Scanned(data: Bytes, maxDepth: nat, maxItems: nat): Option<nat> {
    var item := Parse(data, 0, maxDepth);
    if item.Some? && Items(item.value.0) <= maxItems then Some(item.value.1) else None
  }

  method StructuralScan(data: Bytes, maxDepth: nat, maxItems: nat) returns (r: Option<nat>)
    ensures r == Scanned(data, maxDepth, maxItems)
  {
    hide Parse, Rest, PeekHead, Complete, Todo;
    var stack: seq<nat>, i: nat, items: nat := [], 0, 0;
    ghost var whole := Todo(data, 0, [], maxDepth);
    WholeIsTodo(data, maxDepth);
    while true
      invariant i <= |data| && Positive(stack) && |stack| <= maxDepth
      invariant whole == Add(items, Todo(data, i, stack, maxDepth))
      decreases |data| - i
    {
      ItemAt(data, i, stack, maxDepth);
      items := items + 1;
      if items > maxItems {
        return None;
      }
      var head := ReadHead(data, i);
      if head.None? {
        return None;
      }
      ghost var start := i;
      var HeadAt(major, arg, next) := head.value;
      i := next;
      if major == 2 || major == 3 {
        var end := ScanString(data, i, arg);
        if end.None? {
          return None;
        }
        i := end.value;
      } else if major == 4 || major == 5 {
        var entered, deeper := ScanContainer(data, i, major, arg, stack, maxDepth);
        if entered.None? {
          return None;
        }
        if entered.value {
          RestIsTodo(data, i, deeper, maxDepth);
          stack := deeper;
          continue;
        }
      }
      var finished, left := CompleteItem(stack);
      if finished {
        RestDone(data, i, maxDepth);
        return Some(i);
      }
      RestIsTodo(data, i, left, maxDepth);
      stack := left;
    }
  }

  lemma {:induction false} RestDone(data: Bytes, i: nat, maxDepth: nat)
    requires i <= |data|
    ensures Rest(data, i, [], maxDepth) == Some(Extent(i, 0))
  {
  }

  lemma {:induction false} WholeIsTodo(data: Bytes, maxDepth: nat)
    ensures var item := Parse(data, 0, maxDepth);
            Todo(data, 0, [], maxDepth) == if item.None? then None else Some(Extent(item.value.1, Items(item.value.0)))
  {
    hide Parse;
  }

  /** One turn of the scan: where the item at i ends, or what opening it leaves to do. */
  lemma {:induction false} ItemAt(data: Bytes, i: nat, stack: seq<nat>, maxDepth: nat)
    requires i <= |data| && Positive(stack) && |stack| <= maxDepth
    ensures var head, todo := PeekHead(data, i), Todo(data, i, stack, maxDepth);
            && (head.None? ==> todo.None?)
            && (todo.Some? ==> todo.value.items >= 1)
            && (head.Some? ==>
                  var HeadAt(major, arg, next) := head.value;
                  var count := if major == 4 then arg else 2 * arg;
                  if major == 2 || major == 3 then
                    if arg > |data| - next then todo.None?
                    else todo == Add(1, Rest(data, next + arg, Complete(stack), maxDepth))
                  else if major == 4 || major == 5 then
                    if count >= U64 || count > |data| - next || (count > 0 && |stack| >= maxDepth) then todo.None?
                    else if count == 0 then todo == Add(1, Rest(data, next, Complete(stack), maxDepth))
                    else Positive(stack + [count]) && todo == Add(1, Rest(data, next, stack + [count], maxDepth))
                  else todo == Add(1, Rest(data, next, Complete(stack), maxDepth)))
  {
    hide Rest, ParseMembers, PeekHead, Complete;
    var head := PeekHead(data, i);
    if head.Some? && (head.value.major == 4 || head.value.major == 5) {
      ContainerAt(data, i, stack, maxDepth);
    }
  }

  lemma {:induction false} ContainerAt(data: Bytes, i: nat, stack: seq<nat>, maxDepth: nat)
    requires i <= |data| && Positive(stack) && |stack| <= maxDepth
    requires PeekHead(data, i).Some? && PeekHead(data, i).value.major in {4, 5}
    ensures var HeadAt(major, arg, next) := PeekHead(data, i).value;
            var count, todo := if major == 4 then arg else 2 * arg, Todo(data, i, stack, maxDepth);
            if count >= U64 || count > |data| - next || (count > 0 && |stack| >= maxDepth) then todo.None?
            else if count == 0 then todo == Add(1, Rest(data, next, Complete(stack), maxDepth))
            else Positive(stack + [count]) && todo == Add(1, Rest(data, next, stack + [count], maxDepth))
  {
    hide Parse, PeekHead, Complete, ParseMany;
    ContainerParses(data, i, maxDepth - |stack|);
    var HeadAt(major, arg, next) := PeekHead(data, i).value;
    var count := if major == 4 then arg else 2 * arg;
    if 0 < count <= |data| - next && count < U64 && |stack| < maxDepth {
      assert (stack + [count])[..|stack|] == stack;
    }
  }

  /** A container parses as its members do, and has one item more than they have. */
  lemma {:induction false} ContainerParses(data: Bytes, i: nat, depth: nat)
    requires i <= |data| && PeekHead(data, i).Some? && PeekHead(data, i).value.major in {4, 5}
    ensures var HeadAt(major, arg, next) := PeekHead(data, i).value;
            var item, members := Parse(data, i, depth), ParseMembers(data, next, if major == 4 then arg else 2 * arg, depth);
            item.Some? == members.Some? &&
            (item.Some? ==> item.value.1 == members.value.1 && Items(item.value.0) == 1 + ItemsAll(members.value.0))
  {
    hide ParseMembers, PeekHead;
    var HeadAt(major, arg, next) := PeekHead(data, i).value;
    var members := ParseMembers(data, next, if major == 4 then arg else 2 * arg, depth);
    if members.Some? && major == 5 {
      PairUpItems(members.value.0);
    }
  }
}
