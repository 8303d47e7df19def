/** The bit array behind the frame allocator, and its first-fit search. */
module Bitmaps {

  // 1 << k for a bit index within a byte.
  function BitOf(k: nat): bv8
    requires k < 8
  {
    match k
    case 0 => 0x01
    case 1 => 0x02
    case 2 => 0x04
    case 3 => 0x08
    case 4 => 0x10
    case 5 => 0x20
    case 6 => 0x40
    case 7 => 0x80
  }

  lemma BitIs(k: nat)
    requires k < 8
    ensures BitOf(k) == 1 << k
  {
  }

  lemma BitOfOther(b: bv8, k: nat, j: nat)
    requires k < 8 && j < 8 && k != j
    ensures (b | BitOf(k)) & BitOf(j) == b & BitOf(j)
    ensures (b & !BitOf(k)) & BitOf(j) == b & BitOf(j)
  {
    assert BitOf(k) & BitOf(j) == 0;
    assert (b | BitOf(k)) & BitOf(j) == (b & BitOf(j)) | (BitOf(k) & BitOf(j));
    assert (b & !BitOf(k)) & BitOf(j) == (b & BitOf(j)) & !(BitOf(k) & BitOf(j));
  }

  lemma BitOfSame(b: bv8, k: nat)
    requires k < 8
    ensures (b | BitOf(k)) & BitOf(k) != 0 && (b & !BitOf(k)) & BitOf(k) == 0
  {
    assert BitOf(k) != 0;
    assert (b | BitOf(k)) & BitOf(k) == BitOf(k);
  }

  ghost predicate IsSet(bits: seq<bv8>, i: nat)
    requires i < 8 * |bits|
  {
    bits[i / 8] & BitOf(i % 8) != 0
  }

  function Changed(b: bv8, k: nat, bit: bool): bv8
    requires k < 8
  {
    if bit then b | BitOf(k) else b & !BitOf(k)
  }

  lemma BitChanged(b: bv8, j: nat, bit: bool, r: nat)
    requires j < 8 && r < 8
    ensures Changed(b, j, bit) & BitOf(r) != 0 <==> if r == j then bit else b & BitOf(r) != 0
  {
    hide BitOf;
    BitOfSame(b, j);
    if r != j { BitOfOther(b, j, r); }
  }

  lemma ChangedSets(bits: seq<bv8>, index: nat, bit: bool, k: nat)
    requires index < 8 * |bits| && k < 8 * |bits|
    ensures IsSet(bits[index / 8 := Changed(bits[index / 8], index % 8, bit)], k)
      <==> if k == index then bit else IsSet(bits, k)
  {
    hide BitOf, Changed;
    BitChanged(bits[index / 8], index % 8, bit, k % 8);
  }

  // `ones` are the indices of the set bits, of the first n.
  ghost predicate Denotes(bits: seq<bv8>, n: nat, ones: set<nat>)
    requires n <= 8 * |bits|
  {
    && (forall i :: i in ones ==> i < n)
    && (forall i {:trigger i in ones} :: 0 <= i < n ==> (i in ones <==> IsSet(bits, i)))
  }

  lemma OneChanged(bits: seq<bv8>, n: nat, ones: set<nat>, index: nat, bit: bool)
    requires n <= 8 * |bits| && Denotes(bits, n, ones) && index < n
    ensures Denotes(bits[index / 8 := Changed(bits[index / 8], index % 8, bit)], n,
                    if bit then ones + {index} else ones - {index})
  {
    hide IsSet, Changed;
    var r := bits[index / 8 := Changed(bits[index / 8], index % 8, bit)];
    var ones' := if bit then ones + {index} else ones - {index};
    forall k | 0 <= k < n ensures k in ones' <==> IsSet(r, k) {
      ChangedSets(bits, index, bit, k);
      assert k in ones <==> IsSet(bits, k);
    }
  }

  class Bitmap {
    const bitCount: nat
    const bits: array<bv8>
    ghost var ones: set<nat>    // the indices whose bit is set

    ghost predicate Valid()
      reads this, bits
    {
      bitCount <= 8 * bits.Length && Denotes(bits[..], bitCount, ones)
    }

    constructor (count: nat)
      ensures Valid() && fresh(bits) && bitCount == count && ones == {}
    {
      bitCount := count;
      bits := new bv8[(count + 7) / 8](_ => 0);
      ones := {};
    }

    // The masked byte, as the source returns it: not 0 or 1.
    function GetBit(index: nat): (r: bv8)
      requires Valid() && index < bitCount
      reads this, bits
      ensures r != 0 <==> index in ones
    {
      assert IsSet(bits[..], index) <==> bits[index / 8] & BitOf(index % 8) != 0;
      bits[index / 8] & BitOf(index % 8)
    }

    method SetOne(index: nat, bit: bool)
      requires Valid() && index < bitCount
      modifies this, bits
      ensures Valid()
      ensures ones == if bit then old(ones) + {index} else old(ones) - {index}
    {
      hide BitOf, Denotes, Changed;
      OneChanged(bits[..], bitCount, ones, index, bit);
      ghost var was := bits[..];
      var at := index / 8;
      bits[at] := Changed(bits[at], index % 8, bit);
      assert bits[..] == was[at := Changed(was[at], index % 8, bit)];
      ones := if bit then ones + {index} else ones - {index};
    }

    method SetBit(first: nat, count: nat, bit: bool)
      requires Valid()
      modifies this, bits
      ensures Valid()
      ensures forall k {:trigger k in ones} ::
        k in ones <==> if first <= k < first + count && k < bitCount then bit else k in old(ones)
    {
      var i, index := 0, first;
      while i < count && index < bitCount
        invariant Valid() && index == first + i && i <= count
        invariant forall k {:trigger k in ones} ::
          k in ones <==> if first <= k < index && k < bitCount then bit else k in old(ones)
      {
        SetOne(index, bit);
        i, index := i + 1, index + 1;
      }
    }

    // First fit for a run of clear bits. The search looks at the first bit of a
    // run twice and at the last bit of a longer run not at all, so a run of one
    // is right and of a longer run all but the last bit is known to be clear.
    method AllocClear(count: nat) returns (index: int)
      requires Valid() && 0 < count
      modifies this, bits
      ensures Valid()
      ensures index == -1 || 0 <= index < bitCount
      ensures index == -1 ==> ones == old(ones)
      ensures 0 <= index ==> forall k {:trigger k in ones} ::
        k in ones <==> k in old(ones) || (index <= k < index + count && k < bitCount)
      ensures 0 <= index ==> index !in old(ones)
      ensures 0 <= index ==> forall i {:trigger i in old(ones)} :: index <= i < index + count - 1 ==>
        i < bitCount && i !in old(ones)
      ensures count == 1 && 0 <= index ==> forall i :: 0 <= i < index ==> i in old(ones)
      ensures count == 1 && index == -1 ==> forall i :: 0 <= i < bitCount ==> i in old(ones)
    {
      var search := 0;
      while search < bitCount
        invariant 0 <= search <= bitCount && Valid() && ones == old(ones)
        invariant count == 1 ==> forall i :: 0 <= i < search ==> i in ones
      {
        if GetBit(search) != 0 {
          search := search + 1;
          continue;
        }
        var ok := search;
        var i := 1;
        while i < count && search < bitCount
          invariant 1 <= i <= count && ok <= search <= bitCount && Valid() && ones == old(ones)
          invariant ok == -1 || (ok == search - i + 1 && forall k :: ok <= k < search ==> k !in ones)
          decreases count - i
        {
          var b := GetBit(search);
          search := search + 1;
          if b != 0 {
            ok := -1;
            break;
          }
          i := i + 1;
        }
        if i >= count {
          SetBit(ok, count, true);
          return ok;
        }
      }
      return -1;
    }
  }
}
