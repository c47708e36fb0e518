/** A malloc'ed text that grows by realloc. Appending demands room for the terminating NUL too. */
module Buffer {
  import opened Common

  class Buffer {
    var data: array<Byte>
    var length: nat

    ghost predicate Valid()
      reads this
    {
      length < data.Length
    }

    function Text(): seq<Byte>
      requires Valid()
      reads this, data
    {
      data[..length]
    }

    constructor (capacity: nat)
      requires capacity > 0
      ensures Valid() && Text() == [] && data.Length == capacity && fresh(data)
    {
      data := new Byte[capacity](_ => 0);
      length := 0;
    }

    method Realloc(capacity: nat)
      requires Valid() && length < capacity
      modifies this
      ensures Valid() && Text() == old(Text()) && data.Length == capacity && fresh(data)
      ensures length == old(length)
    {
      var grown := new Byte[capacity](_ => 0);
      var i := 0;
      while i < length
        invariant i <= length
        invariant grown[..i] == data[..i]
        modifies grown
      {
        grown[i] := data[i];
        i := i + 1;
      }
      data := grown;
    }

    method Append(s: seq<Byte>)
      requires Valid() && length + |s| < data.Length
      modifies this`length, data
      ensures Valid() && Text() == old(Text()) + s && data == old(data)
      ensures length == old(length) + |s|
    {
      var i := 0;
      while i < |s|
        invariant i <= |s| && length == old(length) + i
        invariant data == old(data) && data[..length] == old(Text()) + s[..i]
      {
        data[length] := s[i];
        length := length + 1;
        i := i + 1;
      }
      assert s[..i] == s;
    }
  }
}
