/** The chain the coordinator reads: blocks of registry logs, block hashes, and the
    sequence of state advances of one epoch. */
module Chain {
  import opened Wrappers

  // Hex strings are compared after lower-casing everywhere; they are values here.
  type Hash = int
  type Bytes = seq<int>

  datatype CortexState = CortexState(words: seq<int>)

  /** One CoreTexStateAdvanced log as the registry emits it. */
  datatype Log = Log(epoch: nat, transitionIndex: nat, parent: Hash, newRoot: Hash, patchHash: Hash,
                     coreV: Hash, corpus: Hash, frontier: Hash, wordCount: nat, patchBytes: Bytes)

  type Block = seq<Log>
  type Blocks = seq<Block>

  /** A log as an RPC node returns it: stamped with the block it was read from. */
  datatype Event = Event(blockNumber: nat, blockHash: Hash, log: Log)

  /** A block hash commits to the block and to everything below it. */
  ghost predicate CommitsToPrefix(hash: Blocks -> Hash) {
    forall a, b :: |a| == |b| && hash(a) == hash(b) ==> a == b
  }

  function BlockHashAt(hash: Blocks -> Hash, chain: Blocks, height: nat): (r: Option<Hash>) {
    if height < |chain| then Some(hash(chain[..height + 1])) else None
  }

  predicate Canonical(hash: Blocks -> Hash, chain: Blocks, height: nat, blockHash: Hash) {
    BlockHashAt(hash, chain, height) == Some(blockHash)
  }

  predicate OnChain(hash: Blocks -> Hash, chain: Blocks, ev: Event) {
    Canonical(hash, chain, ev.blockNumber, ev.blockHash) && ev.log in chain[ev.blockNumber]
  }

  function EpochEventsOf(block: Block, number: nat, blockHash: Hash, epoch: nat): (r: seq<Event>)
    ensures forall log :: log in block && log.epoch == epoch ==> Event(number, blockHash, log) in r
  {
    if block == [] then []
    else
      var rest := EpochEventsOf(block[..|block| - 1], number, blockHash, epoch);
      var last := block[|block| - 1];
      assert forall log :: log in block ==> log in block[..|block| - 1] || log == last;
      if last.epoch == epoch then rest + [Event(number, blockHash, last)] else rest
  }

  /** The advances of `epoch` on the chain, in log order. */
  function EpochEvents(hash: Blocks -> Hash, chain: Blocks, epoch: nat): seq<Event> {
    if chain == [] then []
    else
      EpochEvents(hash, chain[..|chain| - 1], epoch) +
      EpochEventsOf(chain[|chain| - 1], |chain| - 1, hash(chain), epoch)
  }

  /** The registry numbers the advances of an epoch 0, 1, 2, ... */
  ghost predicate RegistryNumbered(hash: Blocks -> Hash, chain: Blocks, epoch: nat) {
    var events := EpochEvents(hash, chain, epoch);
    forall i :: 0 <= i < |events| ==> events[i].log.transitionIndex == i
  }

  lemma {:induction false} EpochEventsPrefix(hash: Blocks -> Hash, chain: Blocks, k: nat, epoch: nat)
    requires k <= |chain|
    ensures EpochEvents(hash, chain[..k], epoch) <= EpochEvents(hash, chain, epoch)
    decreases |chain|
  {
    if k == |chain| {
      assert chain[..k] == chain;
    } else {
      EpochEventsPrefix(hash, chain[..|chain| - 1], k, epoch);
      assert chain[..|chain| - 1][..k] == chain[..k];
    }
  }

  /** A numbered advance that is on the chain sits, in the epoch's events, at its own index, and
      does so already in the chain cut off at its block; the events of the cut chain, none of a later
      block, come first. */
  lemma EventAtItsIndex(hash: Blocks -> Hash, chain: Blocks, epoch: nat, ev: Event)
    requires RegistryNumbered(hash, chain, epoch)
    requires OnChain(hash, chain, ev) && ev.log.epoch == epoch
    ensures var upTo := EpochEvents(hash, chain[..ev.blockNumber + 1], epoch);
            && ev.log.transitionIndex < |upTo| && upTo[ev.log.transitionIndex] == ev
            && upTo <= EpochEvents(hash, chain, epoch)
            && (forall j :: 0 <= j < |upTo| ==> upTo[j].blockNumber <= ev.blockNumber)
  {
    var cut := chain[..ev.blockNumber + 1];
    var upTo := EpochEvents(hash, cut, epoch);
    EpochEventsPrefix(hash, chain, ev.blockNumber + 1, epoch);
    var own := EpochEventsOf(cut[|cut| - 1], |cut| - 1, hash(cut), epoch);
    assert ev in own;
    assert upTo == EpochEvents(hash, cut[..|cut| - 1], epoch) + own;
    assert ev in upTo;
    var i :| 0 <= i < |upTo| && upTo[i] == ev;
    assert EpochEvents(hash, chain, epoch)[i] == ev;
    forall j | 0 <= j < |upTo|
      ensures upTo[j].blockNumber <= ev.blockNumber
    {
      EpochEventsOnChain(hash, cut, epoch, j);
    }
  }

  /** Two chains that agree on the hash of one block agree on every epoch event up to it. */
  lemma SameHashSameEvents(hash: Blocks -> Hash, a: Blocks, b: Blocks, height: nat, epoch: nat)
    requires CommitsToPrefix(hash)
    requires height < |a| && height < |b| && hash(a[..height + 1]) == hash(b[..height + 1])
    ensures a[..height + 1] == b[..height + 1]
    ensures EpochEvents(hash, a[..height + 1], epoch) <= EpochEvents(hash, b, epoch)
  {
    EpochEventsPrefix(hash, b, height + 1, epoch);
  }

  lemma {:induction false} OwnBlock(block: Block, number: nat, blockHash: Hash, epoch: nat)
    ensures forall ev :: ev in EpochEventsOf(block, number, blockHash, epoch) ==>
              ev.blockNumber == number && ev.blockHash == blockHash && ev.log in block
  {
    if block != [] {
      OwnBlock(block[..|block| - 1], number, blockHash, epoch);
    }
  }

  /** An epoch event is a log of a block of its chain. */
  lemma {:induction false} EpochEventsOnChain(hash: Blocks -> Hash, chain: Blocks, epoch: nat, i: nat)
    requires i < |EpochEvents(hash, chain, epoch)|
    ensures EpochEvents(hash, chain, epoch)[i].blockNumber < |chain|
    ensures OnChain(hash, chain, EpochEvents(hash, chain, epoch)[i])
    decreases |chain|
  {
    var init := chain[..|chain| - 1];
    if i < |EpochEvents(hash, init, epoch)| {
      EpochEventsOnChain(hash, init, epoch, i);
      var n := EpochEvents(hash, init, epoch)[i].blockNumber;
      assert init[..n + 1] == chain[..n + 1];
    } else {
      OwnBlock(chain[|chain| - 1], |chain| - 1, hash(chain), epoch);
      var own := EpochEventsOf(chain[|chain| - 1], |chain| - 1, hash(chain), epoch);
      assert own[i - |EpochEvents(hash, init, epoch)|] in own;
      assert chain[..|chain|] == chain;
    }
  }
}
