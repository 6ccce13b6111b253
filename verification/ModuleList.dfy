/** The walk over the kernel's circular module list (src/os/windows/kernel.rs). */
module ModuleList {
  import opened Base
  import opened PhysicalMemory

  /** One list entry as read: the module it describes and its forward link. */
  datatype Node<M> = Node(info: M, flink: Address)

  /** Reading the entry at an address, names included. */
  type Reader<!M, !E> = Address -> Result<Node<M>, E>

  /** The links from `first` run through `chain`, none of them the head, and end at the head or at a failed read. */
  predicate Chain<M(==), E(==)>(read: Reader<M, E>, head: Address, first: Address, chain: seq<Address>)
    decreases |chain|
  {
    if chain == [] then first == head
    else
      first == chain[0] && first != head
      && match read(first)
         case Err(_) => |chain| == 1
         case Ok(node) => Chain(read, head, node.flink, chain[1..])
  }

  function Prepend<M, E>(front: seq<M>, rest: Result<seq<M>, E>): Result<seq<M>, E> {
    var s :- rest;
    Ok(front + s)
  }

  /** The modules of a chain in link order, or its failed read. */
  function Modules<M, E>(read: Reader<M, E>, chain: seq<Address>): Result<seq<M>, E> {
    if chain == [] then Ok([])
    else
      var node :- read(chain[0]);
      Prepend([node.info], Modules(read, chain[1..]))
  }

  lemma {:induction false} ChainMembers<M, E>(read: Reader<M, E>, head: Address, first: Address, chain: seq<Address>)
    requires Chain(read, head, first, chain)
    ensures head !in chain
    decreases |chain|
    ensures Modules(read, chain).Ok? ==> |Modules(read, chain).value| == |chain|
    ensures Modules(read, chain).Ok? ==>
              forall i :: 0 <= i < |chain| ==>
                read(chain[i]).Ok? && Modules(read, chain).value[i] == read(chain[i]).value.info
  {
    if chain != [] && read(first).Ok? {
      ChainMembers(read, head, read(first).value.flink, chain[1..]);
    }
  }

  /** From one address the links determine the chain. */
  lemma {:induction false} ChainUnique<M, E>(read: Reader<M, E>, head: Address, first: Address, c: seq<Address>,
                                             d: seq<Address>)
    requires Chain(read, head, first, c) && Chain(read, head, first, d)
    ensures c == d
    decreases |c|
  {
    if c != [] {
      if read(first).Ok? {
        ChainUnique(read, head, read(first).value.flink, c[1..], d[1..]);
        assert c == [c[0]] + c[1..];
      }
      assert d == [d[0]] + d[1..];
    }
  }

  lemma {:induction false} ChainTail<M, E>(read: Reader<M, E>, head: Address, first: Address, chain: seq<Address>,
                                           i: nat)
    requires Chain(read, head, first, chain) && i < |chain|
    ensures Chain(read, head, chain[i], chain[i..])
    decreases i
  {
    if i > 0 {
      ChainTail(read, head, read(first).value.flink, chain[1..], i - 1);
      assert chain[1..][i - 1..] == chain[i..];
    }
  }

  /** No entry is met twice: a repeated entry would lead round for ever and never to the head. */
  lemma ChainDistinct<M, E>(read: Reader<M, E>, head: Address, first: Address, chain: seq<Address>, i: nat, j: nat)
    requires Chain(read, head, first, chain) && i < j < |chain|
    ensures chain[i] != chain[j]
  {
    ChainTail(read, head, first, chain, i);
    ChainTail(read, head, first, chain, j);
    if chain[i] == chain[j] {
      ChainUnique(read, head, chain[i], chain[i..], chain[j..]);
      assert false;
    }
  }

  /** `loaded_module_list`: the entries between two visits of the head, each once, in link order. The walk ends when
      the links reach the head or a read fails; `chain` witnesses that they do. */
  method LoadedModules<M, E>(read: Reader<M, E>, list: Result<Address, E>, head: Address, ghost chain: seq<Address>)
    returns (r: Result<seq<M>, E>)
    requires list.Ok? ==> Chain(read, head, list.value, chain)
    ensures list.Err? ==> r == Err(list.error)
    ensures list.Ok? ==> r == Modules(read, chain)
  {
    if list.Err? {
      return Err(list.error);
    }
    var modules: seq<M> := [];
    var current := list.value;
    ghost var left := chain;
    PrependNothing(Modules(read, chain));
    while current != head
      invariant Chain(read, head, current, left)
      invariant Modules(read, chain) == Prepend(modules, Modules(read, left))
      decreases |left|
    {
      var node := read(current);
      if node.Err? {
        return Err(node.error);
      }
      PrependStep(modules, node.value.info, Modules(read, left[1..]));
      modules := modules + [node.value.info];
      current := node.value.flink;
      left := left[1..];
    }
    assert modules + [] == modules;
    r := Ok(modules);
  }

  lemma PrependNothing<M, E>(rest: Result<seq<M>, E>)
    ensures Prepend([], rest) == rest
  {
    if rest.Ok? {
      assert [] + rest.value == rest.value;
    }
  }

  lemma PrependStep<M, E>(front: seq<M>, x: M, rest: Result<seq<M>, E>)
    ensures Prepend(front, Prepend([x], rest)) == Prepend(front + [x], rest)
  {
    if rest.Ok? {
      assert front + ([x] + rest.value) == front + [x] + rest.value;
    }
  }
}
