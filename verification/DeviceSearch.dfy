/** A search on an OpenCL device from the epoch number to the reports: the dataset is generated, its front is copied to
    the cache, the program of the block's period is emitted, and the launch leaves what the CPU's hashes call for. */
module DeviceSearch {
  import opened Words
  import opened Program
  import opened Dataset
  import opened ProgPowKernel
  import opened ProgPowAgreement
  import opened ProgPowHash
  import opened SearchOutput
  import opened KernelSearch
  import DagKernels
  import Primes

  // The last epoch whose bound on the items keeps every address within the kernel's 32 bits.
  const LAST_EPOCH := 8064

  lemma BoundFits(epoch: nat)
    ensures (0x80_0000 + epoch * 0x1_0000) / 2 * LANES <= ProgPowKernel.TWO32 <==> epoch <= LAST_EPOCH
  {
  }

  /** initEpoch: the items of the full dataset and the device memory that holds them. For every epoch the memory is what
      the agreement of kernel and CPU needs exactly if the addresses fit, as they do up to the last epoch. */
  method LoadEpoch(epoch: nat, light: seq<Node>, localWorkSize: nat) returns (numItems: nat, dev: Device)
    requires epoch <= 32639 && 0 < |light| < Primes.TWO32 && 0 < localWorkSize <= 256
    ensures Primes.Greatest(numItems, 0x80_0000 + epoch * 0x1_0000)
    ensures dev.dialect == OpenCl && (Loaded(dev, light, numItems) <==> numItems / 2 * LANES <= ProgPowKernel.TWO32)
    ensures epoch <= LAST_EPOCH ==> Loaded(dev, light, numItems)
  {
    hide Primes.Prime, Item512, Item2048;
    var count := Primes.FullDatasetNumItems(epoch);
    numItems := count.value;
    var dag := new Node[2 * numItems](_ => seq(NODE_WORDS, _ => 0));
    ghost var nodes := DagKernels.GenerateDagCl(light, dag, localWorkSize);
    GeneratedHolds(dag[..], light, numItems / 2);
    var words := WordsOf(dag[..]);
    var cache := new word[CACHE_WORDS](_ => 0);
    FillCache(words, localWorkSize, cache);
    dev := Device(OpenCl, numItems / 2, words, cache[..]);
  }

  /** The whole way, for every epoch up to the last, every group size the miner admits, every block, header, nonce and
      target, every order of events, and every order in which the work groups end their passes. If no pass is disturbed,
      the reports are those that the CPU's hashes call for. */
  method SearchEpoch(epoch: nat, light: seq<Node>, localWorkSize: nat, job: Job, wg: WorkGroups, groups: nat,
                     events: seq<Event>) returns (out: SearchResults, numItems: nat)
    requires epoch <= LAST_EPOCH && 0 < |light| < Primes.TWO32
    requires localWorkSize in {64, 128, 256} && wg.size == localWorkSize / LANES && wg.Valid(groups)
    requires forall i :: 0 <= i < |events| && events[i].Begin? ==> events[i].group < groups
    ensures Primes.Greatest(numItems, 0x80_0000 + epoch * 0x1_0000) && numItems >= 2 && out.Valid()
    ensures out.Holds(Run(Made(OpenCl, wg, groups, light, numItems, job), job.target, events))
    ensures (forall gid: nat :: gid < LANES * groups ==> UndisturbedItem(OpenCl, wg, groups, gid)) ==>
      out.Holds(Run(Results(light, numItems, job, groups), job.target, events))
  {
    hide Primes.Greatest, HoldsDag, KernelCode, Plan, Start, SeedLow, SeedHigh, PeriodSeed, Run, HashAt, MadeAt;
    hide UndisturbedItem, WorkGroups.Valid;
    var dev;
    numItems, dev := LoadEpoch(epoch, light, localWorkSize);
    var code := GetKern(PeriodSeed(job.block));
    ghost var rs := Made(OpenCl, wg, groups, light, numItems, job);
    MadeIsHash(OpenCl, wg, groups, light, numItems, job);
    out := Launch(dev, code, job, wg, groups, events, light, numItems, rs);
  }
}
