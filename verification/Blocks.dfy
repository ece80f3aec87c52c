/** The CPU tier's block records, as every cache policy keeps them. */
module Blocks {
  import opened Sequences

  /** Stands for the opaque byte key (block hash and group); only compared for equality. */
  type Key = nat

  /** `refCnt` is -1 while the block is being written, 0 when idle, and
      otherwise the number of transfers reading it. */
  datatype Block = Block(refCnt: int, id: nat) {
    predicate Ready() { refCnt >= 0 }
  }

  type Table = map<Key, Block>

  /** What an eviction takes out of the cache. */
  datatype Victim = Victim(key: Key, block: Block)

  function VictimKeys(vs: seq<Victim>): (r: seq<Key>)
    ensures |r| == |vs|
    ensures forall i :: 0 <= i < |vs| ==> r[i] == vs[i].key
  {
    seq(|vs|, i requires 0 <= i < |vs| => vs[i].key)
  }

  /** The victims named by `keys`, with the blocks they hold in `table`. */
  function VictimsOf(keys: seq<Key>, table: Table): (r: seq<Victim>)
    requires forall k :: k in keys ==> k in table
    ensures |r| == |keys|
    ensures forall i :: 0 <= i < |keys| ==> r[i] == Victim(keys[i], table[keys[i]])
    ensures VictimKeys(r) == keys
  {
    seq(|keys|, i requires 0 <= i < |keys| => Victim(keys[i], table[keys[i]]))
  }

  /** The keys whose count has one value. */
  function KeysAt(table: Table, refCnt: int): (r: set<Key>)
    ensures r <= table.Keys
  {
    set k | k in table && table[k].refCnt == refCnt
  }

  function IdleKeys(table: Table): set<Key> { KeysAt(table, 0) }

  function WritingKeys(table: Table): set<Key> { KeysAt(table, -1) }
}
