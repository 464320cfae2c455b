/** The cyclic field iterator of pb_common.c. */
module FieldIterator {
  import opened Descriptors

  /** The position of the field with the given tag. The search also looks at the type of
      each entry, so the placeholder of an extension range is never found. Only in an
      empty table does it see the terminator, whose tag is 0. */
  predicate Matches(d: seq<Field>, i: nat, tag: nat)
    requires i <= |d|
  {
    (i < |d| || d == []) && FieldAt(d, i).tag == tag && !FieldAt(d, i).ltype.Extension?
  }

  predicate Findable(d: seq<Field>, tag: nat) {
    exists i: nat :: i <= |d| && Matches(d, i, tag)
  }

  /** The position `turns` steps after `first` in a table of n fields. */
  function Around(first: nat, turns: nat, n: nat): int {
    if first + turns < n then first + turns else if n == 0 then 0 else (first + turns) - n
  }

  /** Is position i among the first `turns` positions visited from `first` on? */
  predicate Passed(first: nat, turns: nat, n: nat, i: nat) {
    first <= i < first + turns || i + n < first + turns
  }

  class FieldIter {
    const start: seq<Field>
    var pos: nat
    var pData: int
    var pSize: int
    var requiredFieldIndex: nat

    /** The pointers and the counter are functions of the position alone, and the
        position is on the terminator only when the table is empty. */
    ghost predicate Valid()
      reads this
    {
      && (pos < |start| || (start == [] && pos == 0))
      && (forall f | f in start :: f.tag != 0)
      && pData == DataAt(start, pos)
      && pSize == SizeAt(start, pos)
      && requiredFieldIndex == RequiredBefore(start, pos)
    }

    function Field(): Field
      requires Valid()
      reads this
    {
      FieldAt(start, pos)
    }

    /** pb_field_iter_begin on a new iterator. */
    constructor (fields: seq<Field>)
      requires forall f | f in fields :: f.tag != 0
      ensures Valid() && start == fields && pos == 0
    {
      start := fields;
      pos := 0;
      requiredFieldIndex := 0;
      pData := FieldAt(fields, 0).dataOffset;
      pSize := FieldAt(fields, 0).dataOffset + FieldAt(fields, 0).sizeOffset;
    }

    method Begin() returns (nonEmpty: bool)
      requires forall f | f in start :: f.tag != 0
      modifies this
      ensures Valid() && pos == 0
      ensures nonEmpty == (start != [])
    {
      pos := 0;
      requiredFieldIndex := 0;
      pData := FieldAt(start, pos).dataOffset;
      pSize := pData + FieldAt(start, pos).sizeOffset;
      nonEmpty := FieldAt(start, pos).tag != 0;
      if start != [] { assert start[0] in start; }
    }

    /** One step; false when it wrapped around to the first field. */
    method Next() returns (more: bool)
      requires Valid()
      modifies this
      ensures Valid()
      ensures more == (old(pos) + 1 < |start|)
      ensures pos == if more then old(pos) + 1 else 0
    {
      assert pos < |start| ==> start[pos] in start;
      assert pos + 1 < |start| ==> start[pos + 1] in start;
      var prev := FieldAt(start, pos);
      if prev.tag == 0 {
        return false;
      }
      pos := pos + 1;
      var cur := FieldAt(start, pos);
      if cur.tag == 0 {
        var _ := Begin();
        return false;
      }
      var prevSize := prev.dataSize;
      if prev.htype.Oneof? && cur.htype.Oneof? && cur.dataOffset == PB_SIZE_MAX {
        assert InSameUnion(start, pos);
        return true;
      } else if prev.atype.Static? && prev.htype.Repeated? {
        prevSize := prevSize * prev.arraySize;
      } else if prev.atype.Pointer? {
        prevSize := 8;
      }
      if prev.htype.Required? {
        requiredFieldIndex := requiredFieldIndex + 1;
      }
      pData := pData + prevSize + cur.dataOffset;
      pSize := pData + cur.sizeOffset;
      return true;
    }

    /** Searches cyclically from the current position: succeeds exactly when some field
        other than an extension has the tag, and then stops on such a field; otherwise
        it comes back to where it started. */
    method Find(tag: nat) returns (found: bool)
      requires Valid()
      modifies this
      ensures Valid() && (pos < |start| || (start == [] && pos == 0))
      ensures found == Findable(start, tag)
      ensures found ==> Matches(start, pos, tag)
      ensures !found ==> pos == old(pos)
    {
      var first := pos;
      ghost var turns := 0;
      while true
        invariant Valid()
        invariant turns < |start| || (start == [] && turns == 0)
        invariant first < |start| || start == []
        invariant pos == Around(first, turns, |start|)
        invariant forall i: nat | i <= |start| && Passed(first, turns, |start|, i) :: !Matches(start, i, tag)
        decreases |start| - turns
      {
        if Field().tag == tag && !Field().ltype.Extension? {
          assert Matches(start, pos, tag);
          return true;
        }
        assert !Matches(start, pos, tag);
        var _ := Next();
        turns := turns + 1;
        if pos == first {
          return false;
        }
      }
    }

    /** find_extension_field: without extension fields it goes once around. */
    method FindExtension() returns (found: bool)
      requires Valid()
      requires forall f | f in start :: !f.ltype.Extension?
      modifies this
      ensures Valid() && !found && pos == old(pos)
    {
      var first := pos;
      ghost var turns := 0;
      while true
        invariant Valid()
        invariant turns < |start| || (start == [] && turns == 0)
        invariant first < |start| || start == []
        invariant pos == Around(first, turns, |start|)
        decreases |start| - turns
      {
        assert pos < |start| ==> start[pos] in start;
        if Field().ltype.Extension? {
          return true;
        }
        var _ := Next();
        turns := turns + 1;
        if pos == first {
          return false;
        }
      }
    }
  }

  /** With distinct tags the position found does not depend on where the search began. */
  lemma MatchUnique(d: seq<Field>, i: nat, j: nat, tag: nat)
    requires DistinctTags(d) && i <= |d| && j <= |d|
    requires Matches(d, i, tag) && Matches(d, j, tag)
    ensures i == j
  {
  }
}
