/** Values that the components exchange. Addresses, hashes, slots and selectors are only ever
    compared for equality, so plain numbers stand for them. */
module Types {
  type Address = nat
  type B256 = nat
  type Slot = nat
  type Word = nat
  type Selector = nat

  const U64_MAX: nat := 0xFFFF_FFFF_FFFF_FFFF

  datatype Option<+T> = None | Some(value: T)
  datatype Result<+T, +E> = Ok(value: T) | Err(error: E)

  /** The events an assertion function can be registered for. */
  datatype TriggerType =
    | Call(selector: Selector)
    | AllCalls
    | BalanceChange
    | StorageChange(slot: Slot)
    | AllStorageChanges

  type TriggerRecorder = map<TriggerType, set<Selector>>

  /** An assertion contract; `payload` stands for its code, storage and status. */
  datatype AssertionContract = AssertionContract(id: B256, payload: nat)

  /** A State Oracle event after the assertion contract has been extracted. */
  datatype Modification =
    | Add(adopter: Address, contract: AssertionContract, triggers: TriggerRecorder, activeAtBlock: nat)
    | Remove(adopter: Address, contractId: B256, inactiveAtBlock: nat)
  {
    function Id(): B256 {
      match this
      case Add(_, contract, _, _) => contract.id
      case Remove(_, id, _) => id
    }

    /** The block from which the event takes effect. */
    function EffectiveBlock(): nat {
      match this
      case Add(_, _, _, b) => b
      case Remove(_, _, b) => b
    }
  }

  /** The elements of all sequences, one sequence after the other. */
  function Concat<T>(ss: seq<seq<T>>): seq<T> {
    if ss == [] then [] else Concat(ss[..|ss| - 1]) + ss[|ss| - 1]
  }

  /** Each sequence stands where the ones before it end. */
  lemma {:induction false} ConcatAt<T>(ss: seq<seq<T>>, i: nat)
    requires i < |ss|
    ensures var start := |Concat(ss[..i])|;
      start + |ss[i]| <= |Concat(ss)| && Concat(ss)[start..start + |ss[i]|] == ss[i]
    ensures |Concat(ss[..i + 1])| == |Concat(ss[..i])| + |ss[i]| && |Concat(ss[..0])| == 0
    decreases |ss|
  {
    var n := |ss| - 1;
    assert ss[..i + 1][..i] == ss[..i];
    if i < n {
      ConcatAt(ss[..n], i);
      assert ss[..n][..i] == ss[..i];
    }
  }

  lemma AppendAssoc<T>(x: seq<T>, y: seq<T>, z: seq<T>)
    ensures (x + y) + z == x + (y + z)
  {
  }

  lemma InParts<T>(s: seq<T>, k: nat, x: T)
    requires k <= |s|
    ensures x in s <==> x in s[..k] || x in s[k..]
  {
    assert s == s[..k] + s[k..];
  }

  lemma TakeSnoc<T>(s: seq<T>, i: nat)
    requires i < |s|
    ensures s[..i + 1] == s[..i] + [s[i]]
  {
  }
}
