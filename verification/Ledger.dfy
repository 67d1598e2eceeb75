/** Counters that are written as "what I read, plus so much": how far they are from counting the writes. */
module Ledger {
  /** A write of the object: one that leaves the counter alone, or one that stores what its writer had read
      after `checked` writes, plus one, plus `extra`. */
  datatype Entry = Kept | Counted(checked: nat, extra: int)

  predicate Valid(entries: seq<Entry>) {
    forall i :: 0 <= i < |entries| && entries[i].Counted? ==> entries[i].checked <= i
  }

  /** The counter after `n` writes. */
  function Number(first: int, entries: seq<Entry>, n: nat): int
    requires Valid(entries) && n <= |entries|
  {
    if n == 0 then first
    else
      match entries[n - 1]
      case Kept => Number(first, entries, n - 1)
      case Counted(checked, extra) => Number(first, entries, checked) + 1 + extra
  }

  /** The counting writes among the first `n`. */
  function Counts(entries: seq<Entry>, n: nat): nat
    requires n <= |entries|
  {
    if n == 0 then 0 else Counts(entries, n - 1) + if entries[n - 1].Counted? then 1 else 0
  }

  /** The counting writes of others between the read and the write of entry `i`. */
  function Missed(entries: seq<Entry>, i: nat): int
    requires Valid(entries) && i < |entries| && entries[i].Counted?
  {
    Counts(entries, i) - Counts(entries, entries[i].checked)
  }

  /** Along the chain of reads behind the counter after `n` writes: all that was added in excess, less all
      that was missed. */
  function Balance(entries: seq<Entry>, n: nat): int
    requires Valid(entries) && n <= |entries|
  {
    if n == 0 then 0
    else
      match entries[n - 1]
      case Kept => Balance(entries, n - 1)
      case Counted(checked, extra) => Balance(entries, checked) + extra - Missed(entries, n - 1)
  }

  /** The counter is the first number, the counting writes, and the balance of its chain. */
  lemma {:induction false} NumberIsBalanced(first: int, entries: seq<Entry>, n: nat)
    requires Valid(entries) && n <= |entries|
    ensures Number(first, entries, n) == first + Counts(entries, n) + Balance(entries, n)
  {
    if n > 0 {
      match entries[n - 1] {
        case Kept => NumberIsBalanced(first, entries, n - 1);
        case Counted(checked, _) => NumberIsBalanced(first, entries, checked);
      }
    }
  }

  /** After every number of writes the counter has risen by just the counting ones. */
  predicate AlwaysExact(first: int, entries: seq<Entry>)
    requires Valid(entries)
  {
    forall n :: 0 <= n <= |entries| ==> Number(first, entries, n) == first + Counts(entries, n)
  }

  /** After every number of writes the counter has risen by at least the counting ones. */
  predicate AlwaysCovers(first: int, entries: seq<Entry>)
    requires Valid(entries)
  {
    forall n :: 0 <= n <= |entries| ==> Number(first, entries, n) >= first + Counts(entries, n)
  }

  /** Each counting write added in excess just what it had missed. */
  predicate ExtrasMatch(entries: seq<Entry>)
    requires Valid(entries)
  {
    forall i :: 0 <= i < |entries| && entries[i].Counted? ==> entries[i].extra == Missed(entries, i)
  }

  /** Each counting write added in excess at least what it had missed. */
  predicate ExtrasSuffice(entries: seq<Entry>)
    requires Valid(entries)
  {
    forall i :: 0 <= i < |entries| && entries[i].Counted? ==> entries[i].extra >= Missed(entries, i)
  }

  predicate NeverInDebt(entries: seq<Entry>)
    requires Valid(entries)
  {
    forall n :: 0 <= n <= |entries| ==> Balance(entries, n) >= 0
  }

  lemma {:induction false} MatchingBalance(entries: seq<Entry>, n: nat)
    requires Valid(entries) && ExtrasMatch(entries) && n <= |entries|
    ensures Balance(entries, n) == 0
  {
    if n > 0 {
      match entries[n - 1] {
        case Kept => MatchingBalance(entries, n - 1);
        case Counted(checked, _) => MatchingBalance(entries, checked);
      }
    }
  }

  lemma {:induction false} SufficientBalance(entries: seq<Entry>, n: nat)
    requires Valid(entries) && ExtrasSuffice(entries) && n <= |entries|
    ensures Balance(entries, n) >= 0
  {
    if n > 0 {
      match entries[n - 1] {
        case Kept => SufficientBalance(entries, n - 1);
        case Counted(checked, _) => SufficientBalance(entries, checked);
      }
    }
  }

  /** The counter counts the counting writes exactly, always, if and only if each of them added in excess
      just what it had missed. */
  lemma ExactExactly(first: int, entries: seq<Entry>)
    requires Valid(entries)
    ensures AlwaysExact(first, entries) <==> ExtrasMatch(entries)
  {
    if ExtrasMatch(entries) {
      forall n | 0 <= n <= |entries| ensures Number(first, entries, n) == first + Counts(entries, n) {
        MatchingBalance(entries, n);
        NumberIsBalanced(first, entries, n);
      }
    }
    if AlwaysExact(first, entries) {
      forall i | 0 <= i < |entries| && entries[i].Counted? ensures entries[i].extra == Missed(entries, i) {
        var m := i + 1;
        assert Number(first, entries, m) == first + Counts(entries, m);
        assert Number(first, entries, entries[i].checked) == first + Counts(entries, entries[i].checked);
      }
    }
  }

  /** It never counts too few if and only if no chain of reads missed more than it added in excess; for
      which it is enough that no single write did. */
  lemma CoversExactly(first: int, entries: seq<Entry>)
    requires Valid(entries)
    ensures AlwaysCovers(first, entries) <==> NeverInDebt(entries)
    ensures ExtrasSuffice(entries) ==> NeverInDebt(entries)
  {
    forall n | 0 <= n <= |entries|
      ensures Number(first, entries, n) == first + Counts(entries, n) + Balance(entries, n)
      ensures ExtrasSuffice(entries) ==> Balance(entries, n) >= 0
    {
      NumberIsBalanced(first, entries, n);
      if ExtrasSuffice(entries) {
        SufficientBalance(entries, n);
      }
    }
  }
}
