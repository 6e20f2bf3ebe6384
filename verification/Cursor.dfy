/** The iterator contract that block, memtable, level and merging iterators share
    (`include/leveldb/iterator.h` as used by `table/iterator_wrapper.h`): a cursor
    over a sorted run that forgets on which side it left the run. */
module Cursor {
  import opened Keys

  class Iterator {
    const run: seq<Entry>
    var pos: nat    // |run| when not valid

    ghost predicate Ok()
      reads this
    {
      Sorted(run) && pos <= |run|
    }

    constructor (run: seq<Entry>)
      requires Sorted(run)
      ensures Ok() && this.run == run && pos == |run|
    {
      this.run := run;
      pos := |run|;
    }

    predicate Valid()
      reads this
    {
      pos < |run|
    }

    function Current(): Entry
      requires Valid()
      reads this
    {
      run[pos]
    }

    method SeekToFirst()
      requires Ok()
      modifies this
      ensures Ok() && pos == 0
    {
      pos := 0;
    }

    method SeekToLast()
      requires Ok()
      modifies this
      ensures Ok() && pos == if |run| == 0 then 0 else |run| - 1
    {
      pos := if |run| == 0 then 0 else |run| - 1;
    }

    method Seek(target: IKey)
      requires Ok()
      modifies this
      ensures Ok() && pos == SeekIndex(run, target)
    {
      pos := SeekIndex(run, target);
    }

    method Next()
      requires Ok() && Valid()
      modifies this
      ensures Ok() && pos == old(pos) + 1
    {
      pos := pos + 1;
    }

    method Prev()
      requires Ok() && Valid()
      modifies this
      ensures Ok() && pos == if old(pos) == 0 then |run| else old(pos) - 1
    {
      pos := if pos == 0 then |run| else pos - 1;
    }
  }
}
