/** The two-word bitmap with which pb_decode_noinit remembers the required fields. */
module RequiredFields {
  import opened Bits
  import opened Varints

  /** The words of the bitmap record exactly the indices in `seen`. */
  ghost predicate Records(words: seq<nat>, seen: set<nat>) {
    && |words| == 2
    && (forall k {:trigger k in seen} :: k in seen ==> k < 64)
    && (forall k: nat {:trigger Bit(words[0], k)} :: Bit(words[0], k) <==> k < 32 && k in seen)
    && (forall k: nat {:trigger Bit(words[1], k)} :: Bit(words[1], k) <==> k < 32 && k + 32 in seen)
  }

  lemma RecordedBelow64(words: seq<nat>, seen: set<nat>)
    requires Records(words, seen)
    ensures forall k :: k in seen ==> k < 64
  {
  }

  lemma NothingRecorded()
    ensures Records([0, 0], {})
  {
    forall k: nat ensures !Bit(0, k) { ZeroBits(k); }
  }

  /** fields_seen[index >> 5] |= 1 << (index & 31) */
  method Record(words: array<nat>, index: nat, ghost seen: set<nat>)
    requires words.Length == 2 && Records(words[..], seen) && index < 64
    modifies words
    ensures Records(words[..], seen + {index})
  {
    hide Or, Bit;
    var tmp := ShiftLeft(1, index % 32);
    ShiftLeftOne(index % 32);
    ghost var before := words[..];
    words[index / 32] := Or(words[index / 32], tmp);
    forall k: nat ensures Bit(words[index / 32], k) <==> Bit(before[index / 32], k) || k == index % 32 {
      OrBit(before[index / 32], tmp, k);
      Pow2Bit(index % 32, k);
    }
    assert forall k: nat {:trigger Bit(words[0], k)} :: Bit(words[0], k) <==> k < 32 && k in seen + {index};
    assert forall k: nat {:trigger Bit(words[1], k)} :: Bit(words[1], k) <==> k < 32 && k + 32 in seen + {index};
  }

  /** The final check, word by word and with a mask for the last one, asks exactly whether
      every index below the count was seen. */
  method AllSeen(words: array<nat>, count: nat, ghost seen: set<nat>) returns (ok: bool)
    requires words.Length == 2 && Records(words[..], seen) && count <= 64
    requires count > 0 ==> forall k :: k in seen ==> k < count
    ensures ok <==> forall k: nat :: k < count ==> k in seen
  {
    hide Bit;
    var allbits := M32 - 1;
    assert allbits == Pow2(32) - 1 by { Pow2Values(); }
    if count > 0 {
      var i := 0;
      while i < count / 32
        invariant i <= count / 32
        invariant forall k: nat :: k < 32 * i ==> k in seen
      {
        WholeWord(words[..], i, seen);
        if words[i] != allbits {
          return false;
        }
        i := i + 1;
      }
      if count % 32 != 0 {
        ShiftOnes(32, 32 - count % 32);
        LastWord(words[..], count, seen);
        if words[count / 32] != ShiftRight(allbits, 32 - count % 32) {
          return false;
        }
      }
    }
    return true;
  }

  lemma WholeWord(words: seq<nat>, i: nat, seen: set<nat>)
    requires Records(words, seen) && i < 2
    ensures words[i] == Pow2(32) - 1 <==> forall k: nat :: 32 * i <= k < 32 * i + 32 ==> k in seen
  {
    LowBitsWord(words[i], 32);
    if forall k: nat :: 32 * i <= k < 32 * i + 32 ==> k in seen {
      forall k: nat | k < 32 ensures Bit(words[i], k) {
        assert 32 * i + k in seen;
      }
    }
    if BitsBelowSet(words[i], 32) {
      forall k: nat | 32 * i <= k < 32 * i + 32 ensures k in seen {
        assert Bit(words[i], k - 32 * i);
      }
    }
  }

  lemma LastWord(words: seq<nat>, count: nat, seen: set<nat>)
    requires Records(words, seen) && count < 64 && count % 32 != 0
    requires forall k :: k in seen ==> k < count
    ensures words[count / 32] == Pow2(count % 32) - 1 <==>
            forall k: nat :: count - count % 32 <= k < count ==> k in seen
  {
    var i, n, low := count / 32, count % 32, count - count % 32;
    assert low == 32 * i;
    forall k: nat | Bit(words[i], k) ensures k < n {
      assert low + k in seen;
    }
    LowBitsWord(words[i], n);
    if forall k: nat :: low <= k < count ==> k in seen {
      forall k: nat | k < n ensures Bit(words[i], k) {
        assert low + k in seen;
      }
    }
    if BitsBelowSet(words[i], n) {
      forall k: nat | low <= k < count ensures k in seen {
        assert Bit(words[i], k - low);
      }
    }
  }
}
