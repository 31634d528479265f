/** The memory behind an encoder: a growable vector (owned or borrowed), or a cursor over a fixed slice.
    All of them refine one abstract byte string, `Contents()`.
 */
module Buffers {
  import opened Bits

  function Rotated(s: seq<byte>, count: nat): (r: seq<byte>)
    requires count <= |s|
  {
    s[|s| - count..] + s[..|s| - count]
  }

  /** `n` bytes can be held; a vector holds any number. */
  predicate Fits(room: Option<nat>, n: nat) {
    room.Some? ==> n <= room.value
  }

  class VecBuffer {
    var data: seq<byte>

    constructor (initial: seq<byte>)
      ensures data == initial
    {
      data := initial;
    }
  }

  /** A cursor: the bytes before `pos` have been written, the ones after are whatever was there. */
  class SliceBuffer {
    const arr: array<byte>
    var pos: nat

    ghost predicate Valid()
      reads this
    {
      pos <= arr.Length
    }

    constructor (slice: array<byte>)
      ensures Valid() && arr == slice && pos == 0
    {
      arr, pos := slice, 0;
    }

    method Write(d: seq<byte>)
      requires Valid() && pos + |d| <= arr.Length
      modifies this, arr
      ensures Valid() && arr[..pos] == old(arr[..pos]) + d
      ensures forall k :: pos <= k < arr.Length ==> arr[k] == old(arr[k])
    {
      for i := 0 to |d|
        invariant pos == old(pos) && arr[..pos] == old(arr[..pos])
        invariant arr[pos..pos + i] == d[..i]
        invariant forall k :: pos + i <= k < arr.Length ==> arr[k] == old(arr[k])
      {
        arr[pos + i] := d[i];
        assert arr[pos..pos + i + 1] == arr[pos..pos + i] + [d[i]];
      }
      assert d[..|d|] == d;
      assert arr[..pos + |d|] == arr[..pos] + arr[pos..pos + |d|];
      pos := pos + |d|;
    }

    /** Give up the bytes from `len` on, and clear them. */
    method Truncate(len: nat)
      requires Valid()
      modifies this, arr
      ensures Valid()
      ensures arr[..pos] == if len < old(pos) then old(arr[..len]) else old(arr[..pos])
      ensures forall k :: pos <= k < arr.Length ==> arr[k] == if k < old(pos) then 0 else old(arr[k])
    {
      if len < pos {
        var end := pos;
        pos := len;
        for i := len to end
          invariant pos == len && arr[..len] == old(arr[..len])
          invariant forall k :: len <= k < arr.Length ==> arr[k] == if k < i then 0 else old(arr[k])
        {
          arr[i] := 0;
        }
      }
    }

    method Fill(n: nat, v: byte)
      requires Valid() && pos <= n <= arr.Length
      modifies this, arr
      ensures Valid() && pos == n
      ensures arr[..pos] == old(arr[..pos]) + seq(n - old(pos), _ => v)
      ensures forall k :: pos <= k < arr.Length ==> arr[k] == old(arr[k])
    {
      for i := pos to n
        invariant pos == old(pos) && arr[..pos] == old(arr[..pos])
        invariant forall k :: pos <= k < arr.Length ==> arr[k] == if k < i then v else old(arr[k])
      {
        arr[i] := v;
      }
      assert arr[pos..n] == seq(n - pos, _ => v);
      assert arr[..n] == arr[..pos] + arr[pos..n];
      pos := n;
    }

    method Rotate(start: nat, count: nat)
      requires Valid() && start <= pos && count <= pos - start
      modifies this, arr
      ensures Valid() && pos == old(pos)
      ensures arr[..pos] == old(arr[..start]) + Rotated(old(arr[start..pos]), count)
      ensures forall k :: pos <= k < arr.Length ==> arr[k] == old(arr[k])
    {
      var rotated := Rotated(arr[start..pos], count);
      for i := 0 to |rotated|
        invariant pos == old(pos) && arr[..start] == old(arr[..start])
        invariant arr[start..start + i] == rotated[..i]
        invariant forall k :: pos <= k < arr.Length ==> arr[k] == old(arr[k])
      {
        arr[start + i] := rotated[i];
        assert arr[start..start + i + 1] == arr[start..start + i] + [rotated[i]];
      }
      assert rotated[..|rotated|] == rotated;
      assert arr[..pos] == arr[..start] + arr[start..pos];
    }
  }

  datatype Buffer = Vec(vec: VecBuffer) | Slice(slice: SliceBuffer) {
    ghost function Repr(): set<object> {
      match this
      case Vec(v) => {v}
      case Slice(s) => {s, s.arr}
    }

    ghost predicate Valid()
      reads Repr()
    {
      Slice? ==> slice.Valid()
    }

    /** The bytes written so far (`as_slice`). */
    function Contents(): seq<byte>
      requires Valid()
      reads Repr()
    {
      match this
      case Vec(v) => v.data
      case Slice(s) => s.arr[..s.pos]
    }

    function Room(): Option<nat> {
      match this
      case Vec(_) => None
      case Slice(s) => Some(s.arr.Length)
    }

    method WriteAll(d: seq<byte>)
      requires Valid() && Fits(Room(), |Contents()| + |d|)
      modifies Repr()
      ensures Valid() && Contents() == old(Contents()) + d
    {
      match this {
        case Vec(v) => v.data := v.data + d;
        case Slice(s) => s.Write(d);
      }
    }

    method Truncate(len: nat)
      requires Valid()
      modifies Repr()
      ensures Valid()
      ensures Contents() == if len < |old(Contents())| then old(Contents())[..len] else old(Contents())
    {
      match this {
        case Vec(v) =>
          if len < |v.data| {
            v.data := v.data[..len];
          }
        case Slice(s) =>
          ghost var before := s.arr[..s.pos];
          s.Truncate(len);
          if len < |before| {
            assert before[..len] == old(s.arr[..len]);
          }
      }
    }

    method PadTo(n: nat, v: byte)
      requires Valid() && |Contents()| <= n && Fits(Room(), n)
      modifies Repr()
      ensures Valid() && Contents() == old(Contents()) + seq(n - |old(Contents())|, _ => v)
    {
      match this {
        case Vec(b) => b.data := b.data + seq(n - |b.data|, _ => v);
        case Slice(s) => s.Fill(n, v);
      }
    }

    method WriteAt(pos: nat, d: byte)
      requires Valid() && pos < |Contents()|
      modifies Repr()
      ensures Valid() && Contents() == old(Contents())[pos := d]
    {
      match this {
        case Vec(v) => v.data := v.data[pos := d];
        case Slice(s) => s.arr[pos] := d;
      }
    }

    method RotateRight(start: nat, count: nat)
      requires Valid() && start <= |Contents()| && count <= |Contents()| - start
      modifies Repr()
      ensures Valid()
      ensures Contents() == old(Contents())[..start] + Rotated(old(Contents())[start..], count)
    {
      match this {
        case Vec(v) => v.data := v.data[..start] + Rotated(v.data[start..], count);
        case Slice(s) =>
          assert s.arr[..s.pos][..start] == s.arr[..start];
          assert s.arr[..s.pos][start..] == s.arr[start..s.pos];
          s.Rotate(start, count);
      }
    }
  }

  /** A slice holds as many bytes as it is long. */
  method FillSlice(d: seq<byte>) returns (buf: Buffer)
    ensures buf.Slice? && buf.Valid() && buf.slice.arr.Length == |d| && buf.Contents() == d
  {
    var arr := new byte[|d|];
    var slice := new SliceBuffer(arr);
    buf := Slice(slice);
    buf.WriteAll(d);
  }
}
