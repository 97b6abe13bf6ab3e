/** The chained hash table from numbers to numbers, shown to be a finite map. */
module HashMap {

  const HASH_SIZE: nat := 100

  function Hash(value: nat): (h: nat)
    ensures h < HASH_SIZE
  {
    value % HASH_SIZE
  }

  /** A key with its value, and the next element of the same bucket. */
  class Elem {
    const next: Elem?
    const key: nat
    var value: nat

    constructor (key: nat, value: nat, next: Elem?)
      ensures this.key == key && this.value == value && this.next == next
    {
      this.key, this.value, this.next := key, value, next;
    }
  }

  /** `chain` lists the elements that are reached from `first` by following `next`. */
  ghost predicate Linked(first: Elem?, chain: seq<Elem>) {
    if chain == [] then first == null
    else first == chain[0] && Linked(chain[0].next, chain[1..])
  }

  /** The first element with the key, if any. */
  ghost function Find(chain: seq<Elem>, key: nat): (e: Elem?)
    ensures e != null ==> e in chain && e.key == key
  {
    if chain == [] then null
    else if chain[0].key == key then chain[0]
    else Find(chain[1..], key)
  }

  /** A new element in front of a chain. */
  lemma InFront(elem: Elem, chain: seq<Elem>)
    ensures Linked(elem.next, chain) ==> Linked(elem, [elem] + chain)
    ensures forall key :: Find([elem] + chain, key) == if elem.key == key then elem else Find(chain, key)
  {
    assert ([elem] + chain)[1..] == chain;
  }

  class SizeTSizeTMap {
    const hashTable: array<Elem?>
    ghost var chains: seq<seq<Elem>>
    ghost var elems: set<Elem>
    ghost var entries: map<nat, nat>

    ghost predicate Shape()
      reads this, hashTable
    {
      && hashTable.Length == HASH_SIZE == |chains|
      && (forall h :: 0 <= h < HASH_SIZE ==> Linked(hashTable[h], chains[h]))
      && (forall h :: 0 <= h < HASH_SIZE ==> forall e :: e in chains[h] ==> e in elems)
    }

    ghost function Lookup(key: nat): Elem?
      requires |chains| == HASH_SIZE
      reads this
    {
      Find(chains[Hash(key)], key)
    }

    /** The element found for a key, if any, holds the value that the map gives to the key. */
    ghost predicate Valid()
      reads this, hashTable, elems
    {
      && Shape()
      && (forall key :: key in entries <==> Lookup(key) != null)
      && (forall key :: key in entries ==> Lookup(key) != null && Lookup(key) in elems)
      && (forall key :: key in entries ==> Lookup(key).value == entries[key])
    }

    constructor ()
      ensures Valid() && fresh(hashTable) && elems == {}
      ensures entries == map[]
    {
      hashTable := new Elem?[HASH_SIZE](_ => null);
      chains := seq(HASH_SIZE, _ => []);
      elems := {};
      entries := map[];
    }

    /** Walks the bucket of the key. */
    method Get(key: nat) returns (elem: Elem?)
      requires Valid()
      ensures elem == Lookup(key)
      ensures elem != null <==> key in entries
      ensures elem != null ==> elem.value == entries[key]
    {
      elem := hashTable[Hash(key)];
      ghost var rest := chains[Hash(key)];
      while elem != null && elem.key != key
        invariant Linked(elem, rest) && Find(rest, key) == Lookup(key)
        decreases |rest|
      {
        elem := elem.next;
        rest := rest[1..];
      }
    }

    /** Overwrites the value of a known key, and puts a new key at the front of its bucket. */
    method Add(key: nat, value: nat)
      requires Valid()
      modifies this`chains, this`elems, this`entries, hashTable, elems
      ensures Valid() && fresh(elems - old(elems))
      ensures entries == old(entries)[key := value]
    {
      hide Find, Linked;
      var elem := Get(key);
      if elem == null {
        var h := Hash(key);
        elem := new Elem(key, value, hashTable[h]);
        InFront(elem, chains[h]);
        hashTable[h] := elem;
        chains := chains[h := [elem] + chains[h]];
        elems := elems + {elem};
      } else {
        elem.value := value;
      }
      entries := entries[key := value];
    }
  }
}
