/**
 The 64-bit statistics word of one stack: a 40-bit byte total below a 24-bit allocation
 count, kept by adding and subtracting whole words with wrap-around. The two fields are not
 separated by anything: a carry out of the byte total lands in the count.
 */
module PackedWord {
  import opened Sums

  const TWO24: nat := 0x100_0000
  const TWO40: nat := 0x100_0000_0000
  const TWO64: nat := 0x1_0000_0000_0000_0000

  type U64 = x: nat | x < TWO64

  /** The word added for one allocation: the byte total is a 40-bit field, so a larger size
      is cut to its low 40 bits when it is stored there. */
  function Pack(size: nat): (bits: nat)
    ensures TWO40 <= bits < 2 * TWO40
  {
    size % TWO40 + TWO40
  }

  function FetchAdd(word: U64, size: nat): U64 {
    (word + Pack(size)) % TWO64
  }

  function FetchSub(word: U64, size: nat): U64 {
    (word - Pack(size)) % TWO64
  }

  /** The reader's view of the word. */
  function TotalSize(word: U64): nat {
    word % TWO40
  }

  function NumberOfAllocs(word: U64): nat {
    (word / TWO40) % TWO24
  }

  /** The mask-and-shift forms of the two readers, bit for bit. */
  lemma MasksAreRemainders(bits: bv64)
    ensures bits & 0xFF_FFFF_FFFF == bits % 0x100_0000_0000
    ensures (bits >> 40) & 0xFF_FFFF == bits / 0x100_0000_0000
  {
  }

  /** The two fields take 40 and 24 bits of a word, and one record packs into them as its size cut
      to 40 bits and the count one. */
  lemma FieldWidths(word: U64, size: nat)
    ensures TotalSize(word) == word % 0x100_0000_0000 && NumberOfAllocs(word) == word / 0x100_0000_0000
    ensures TotalSize(Pack(size)) == size % 0x100_0000_0000 && NumberOfAllocs(Pack(size)) == 1
  {
  }

  /** The word of a stack whose outstanding records have these sizes, if nothing else ever
      happened to it. */
  ghost function PackedSum(sizes: seq<nat>): nat {
    SumSeq(sizes, Pack)
  }

  function Identity(n: nat): nat { n }

  function Low40(n: nat): nat { n % TWO40 }

  lemma {:induction false} PackedSumSplits(sizes: seq<nat>)
    ensures PackedSum(sizes) == |sizes| * TWO40 + SumSeq(sizes, Low40)
    ensures SumSeq(sizes, Low40) % TWO40 == SumSeq(sizes, Identity) % TWO40
    ensures SumSeq(sizes, Low40) <= SumSeq(sizes, Identity)
    decreases |sizes|
  {
    if sizes != [] {
      var n := |sizes| - 1;
      PackedSumSplits(sizes[..n]);
      LowParts(SumSeq(sizes[..n], Low40), SumSeq(sizes[..n], Identity), sizes[n]);
      assert PackedSum(sizes) == PackedSum(sizes[..n]) + Pack(sizes[n]);
    }
  }

  lemma LowParts(low: nat, all: nat, size: nat)
    requires low % TWO40 == all % TWO40
    ensures (low + Low40(size)) % TWO40 == (all + Identity(size)) % TWO40
    ensures Low40(size) <= size
  {
  }

  /** The two fields of a word that has wrapped any number of times. */
  lemma FieldsOfWrapped(n: nat, low: nat)
    ensures TotalSize((n * TWO40 + low) % TWO64) == low % TWO40
    ensures NumberOfAllocs((n * TWO40 + low) % TWO64) == (n + low / TWO40) % TWO24
  {
    var carry, rest := low / TWO40, low % TWO40;
    var turns, count := (n + carry) / TWO24, (n + carry) % TWO24;
    assert n * TWO40 + low == turns * TWO64 + (count * TWO40 + rest) by {
      assert low == carry * TWO40 + rest;
      assert n + carry == turns * TWO24 + count;
      assert (n + carry) * TWO40 == n * TWO40 + carry * TWO40;
    }
    var word := count * TWO40 + rest;
    DropTurns(turns, word);
    SplitFields(count, rest);
  }

  lemma DropTurns(turns: nat, word: nat)
    requires word < TWO64
    ensures (turns * TWO64 + word) % TWO64 == word
  {
  }

  lemma SplitFields(count: nat, rest: nat)
    requires rest < TWO40
    ensures (count * TWO40 + rest) % TWO40 == rest
    ensures (count * TWO40 + rest) / TWO40 == count
  {
  }

  /** The word reads as these outstanding sizes: the byte total is right modulo 2^40, and the
      count has gained one for every carry out of the byte total. */
  ghost predicate DecodesTo(word: U64, sizes: seq<nat>) {
    && TotalSize(word) == SumSeq(sizes, Identity) % TWO40
    && NumberOfAllocs(word) == (|sizes| + SumSeq(sizes, Low40) / TWO40) % TWO24
  }

  ghost predicate ExactFor(word: U64, sizes: seq<nat>) {
    TotalSize(word) == SumSeq(sizes, Identity) && NumberOfAllocs(word) == |sizes|
  }

  ghost predicate FitsFields(sizes: seq<nat>) {
    SumSeq(sizes, Identity) < TWO40 && |sizes| < TWO24
  }

  /** A packed sum decodes to the sizes it was made of. */
  lemma DecodePackedSum(sizes: seq<nat>, word: U64)
    requires word == PackedSum(sizes) % TWO64
    ensures DecodesTo(word, sizes)
  {
    PackedSumSplits(sizes);
    FieldsOfWrapped(|sizes|, SumSeq(sizes, Low40));
  }

  /** Exactness: both fields tell the truth precisely when the outstanding bytes fit the byte
      field and the outstanding records fit the count field. */
  lemma DecodesExactlyIff(sizes: seq<nat>, word: U64)
    requires word == PackedSum(sizes) % TWO64
    ensures ExactFor(word, sizes) <==> FitsFields(sizes)
  {
    DecodePackedSum(sizes, word);
    PackedSumSplits(sizes);
    FieldsExactIff(|sizes|, SumSeq(sizes, Low40), SumSeq(sizes, Identity));
  }

  lemma FieldsExactIff(n: nat, low: nat, total: nat)
    requires low % TWO40 == total % TWO40 && low <= total
    ensures (total % TWO40 == total && (n + low / TWO40) % TWO24 == n) <==> (total < TWO40 && n < TWO24)
  {
    if total < TWO40 {
      assert low / TWO40 == 0;
    }
  }

  /** One statistics update of a stack. */
  datatype Update = Add(size: nat) | Sub(size: nat)

  function Apply(word: U64, u: Update): U64 {
    match u
    case Add(size) => FetchAdd(word, size)
    case Sub(size) => FetchSub(word, size)
  }

  function Signed(u: Update): int {
    if u.Add? then Pack(u.size) else -1 * Pack(u.size)
  }

  function RunWord(word: U64, updates: seq<Update>): U64 {
    if updates == [] then word
    else Apply(RunWord(word, updates[..|updates| - 1]), updates[|updates| - 1])
  }

  lemma ApplyWraps(word: U64, balance: int, u: Update)
    requires word == balance % TWO64
    ensures Apply(word, u) == (balance + Signed(u)) % TWO64
  {
  }

  function AddedBy(u: Update): seq<nat> { if u.Add? then [u.size] else [] }

  function SubbedBy(u: Update): seq<nat> { if u.Sub? then [u.size] else [] }

  /** The sizes added (respectively subtracted) by a sequence of updates, in order. */
  function Added(updates: seq<Update>): seq<nat> {
    if updates == [] then [] else Added(updates[..|updates| - 1]) + AddedBy(updates[|updates| - 1])
  }

  function Subbed(updates: seq<Update>): seq<nat> {
    if updates == [] then [] else Subbed(updates[..|updates| - 1]) + SubbedBy(updates[|updates| - 1])
  }

  ghost function Balance(updates: seq<Update>): int {
    PackedSum(Added(updates)) - PackedSum(Subbed(updates))
  }

  lemma BalanceStep(updates: seq<Update>)
    requires updates != []
    ensures
      var before, u := updates[..|updates| - 1], updates[|updates| - 1];
      Balance(updates) == Balance(before) + Signed(u)
  {
    var before, u := updates[..|updates| - 1], updates[|updates| - 1];
    SumSeqAppend(Added(before), AddedBy(u), Pack);
    SumSeqAppend(Subbed(before), SubbedBy(u), Pack);
    SumSeqOne(u.size, Pack);
  }

  /** Wrapping on the way never matters: only the net balance does. */
  lemma {:induction false} RunWordBalance(updates: seq<Update>)
    ensures RunWord(0, updates) == Balance(updates) % TWO64
    decreases |updates|
  {
    if updates != [] {
      var before, u := updates[..|updates| - 1], updates[|updates| - 1];
      var word, balance := RunWord(0, before), Balance(before);
      RunWordBalance(before);
      BalanceStep(updates);
      ApplyWraps(word, balance, u);
      assert RunWord(0, updates) == Apply(word, u);
    }
  }

  /** Decoding does not depend on history: whatever was added and subtracted, in whatever
      order and with whatever wraps in between, the word reads as the records that are still
      outstanding. In particular an overflow repairs itself once enough is subtracted. */
  lemma {:induction false} DecodeIsHistoryIndependent(updates: seq<Update>, outstanding: seq<nat>, word: U64)
    requires word == RunWord(0, updates)
    requires multiset(Added(updates)) == multiset(Subbed(updates)) + multiset(outstanding)
    ensures word == PackedSum(outstanding) % TWO64
    ensures DecodesTo(word, outstanding)
    ensures ExactFor(word, outstanding) <==> FitsFields(outstanding)
  {
    BalanceOfOutstanding(updates, outstanding);
    RunWordBalance(updates);
    DecodePackedSum(outstanding, word);
    DecodesExactlyIff(outstanding, word);
  }

  lemma BalanceOfOutstanding(updates: seq<Update>, outstanding: seq<nat>)
    requires multiset(Added(updates)) == multiset(Subbed(updates)) + multiset(outstanding)
    ensures Balance(updates) == PackedSum(outstanding)
  {
    assert multiset(Subbed(updates) + outstanding) == multiset(Added(updates));
    SumSeqPermutation(Added(updates), Subbed(updates) + outstanding, Pack);
    SumSeqAppend(Subbed(updates), outstanding, Pack);
  }
}
