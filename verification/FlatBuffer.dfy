/** The library's `flat_buffer`: readable bytes, then writable bytes, in one
    array that is compacted or replaced when room runs out. */
module FlatBuffers {
  import opened Prelude

  lemma Joined(s: Bytes, i: nat, j: nat, k: nat)
    requires i <= j <= k <= |s|
    ensures s[i..k] == s[i..j] + s[j..k]
  {
  }

  class FlatBuffer {
    var data: array<byte>
    var start: nat
    var out: nat
    var last: nat

    ghost predicate Valid()
      reads this
    {
      start <= out <= last <= data.Length
    }

    /** The readable bytes. */
    ghost function Contents(): Bytes
      requires Valid()
      reads this, data
    {
      data[start..out]
    }

    constructor ()
      ensures Valid() && fresh(data) && Contents() == []
    {
      data := new byte[0];
      start, out, last := 0, 0, 0;
    }

    method Size() returns (n: nat)
      requires Valid()
      ensures n == |Contents()|
    {
      n := out - start;
    }

    /** A copy of the readable bytes, the one `buffer_copy` takes. */
    method Read() returns (bytes: Bytes)
      requires Valid()
      ensures bytes == Contents()
    {
      var n := Size();
      var copy := new byte[n];
      for i := 0 to n
        invariant Valid() && n == |Contents()|
        invariant copy[..i] == Contents()[..i]
      {
        copy[i] := data[start + i];
      }
      assert copy[..] == copy[..n];
      bytes := copy[..];
    }

    method Clear()
      requires Valid()
      modifies this
      ensures Valid() && data == old(data) && Contents() == []
    {
      start, out, last := 0, 0, 0;
    }

    /** Makes room for `n` writable bytes after the readable ones, which stay the same. */
    method Prepare(n: nat)
      requires Valid()
      modifies this, data
      ensures Valid() && (data == old(data) || fresh(data))
      ensures last == out + n
      ensures Contents() == old(Contents())
    {
      var size := out - start;
      if n <= data.Length - out {
        last := out + n;
      } else if n <= data.Length - size {
        Compact();
        last := out + n;
      } else {
        var capacity := if 2 * size < size + n then size + n else 2 * size;
        var moved := new byte[capacity];
        ghost var before := Contents();
        for i := 0 to size
          modifies moved
          invariant moved[..i] == before[..i]
        {
          moved[i] := data[start + i];
        }
        data, start, out, last := moved, 0, size, size + n;
      }
    }

    /** Moves the readable bytes to the front of the array, over themselves. */
    method Compact()
      requires Valid()
      modifies this, data
      ensures Valid() && data == old(data) && start == 0 && out == old(out - start)
      ensures Contents() == old(Contents())
    {
      var size := out - start;
      ghost var before := Contents();
      for i := 0 to size
        modifies data
        invariant forall k :: 0 <= k < i ==> data[k] == before[k]
        invariant forall k :: start + i <= k < out ==> data[k] == before[k - start]
      {
        data[i] := data[start + i];
      }
      assert data[..size] == before;
      start, out, last := 0, size, size;
    }

    /** Copies bytes into the writable area. */
    method CopyIn(bytes: Bytes)
      requires Valid() && out + |bytes| <= last
      modifies data
      ensures data[out..out + |bytes|] == bytes
      ensures Contents() == old(Contents())
    {
      for i := 0 to |bytes|
        modifies data
        invariant data[out..out + i] == bytes[..i]
        invariant data[start..out] == old(data[start..out])
      {
        data[out + i] := bytes[i];
      }
    }

    /** Turns the first `n` writable bytes into readable ones. */
    method Commit(n: nat)
      requires Valid()
      modifies this`out
      ensures Valid() && out == old(out) + (if n < old(last - out) then n else old(last - out))
    {
      out := out + (if n < last - out then n else last - out);
    }

    /** `prepare`, `buffer_copy`, `commit`: the readable bytes grow by `bytes`. */
    method Append(bytes: Bytes)
      requires Valid()
      modifies this, data
      ensures Valid() && (data == old(data) || fresh(data))
      ensures Contents() == old(Contents()) + bytes
    {
      Prepare(|bytes|);
      CopyIn(bytes);
      ghost var all, end := data[..], out;
      assert all[start..end] == Contents() && all[end..end + |bytes|] == bytes;
      Joined(all, start, end, end + |bytes|);
      Commit(|bytes|);
      assert Contents() == all[start..end + |bytes|];
    }
  }
}
