/** The input buffer of a connection: one array, a reader index and a writer index, with
    eight bytes kept free in front. Its methods act on the byte queue `Content()`. */
module Buffers {
  import opened Framing

  const CHEAP_PREPEND: nat := 8
  const INITIAL_SIZE: nat := 1024
  const EXTRA_SIZE: nat := 65536

  /** What `readv` reports: an error, or the bytes it delivered (none at end of stream). */
  datatype ReadOutcome = Failed(errno: int) | Got(bytes: seq<byte>)

  class Buffer {
    var store: array<byte>
    var reader: nat
    var writer: nat

    ghost predicate Valid()
      reads this
    {
      CHEAP_PREPEND <= reader <= writer <= store.Length
    }

    ghost function Content(): seq<byte>
      requires Valid()
      reads this, store
    {
      store[reader..writer]
    }

    function ReadableBytes(): nat
      requires Valid()
      reads this
    {
      writer - reader
    }

    function WritableBytes(): nat
      requires Valid()
      reads this
    {
      store.Length - writer
    }

    /** The most one `readv` can deliver: the free tail, and the stack segment when the
        tail is shorter than that. */
    function ReadCapacity(): nat
      requires Valid()
      reads this
    {
      WritableBytes() + (if WritableBytes() < EXTRA_SIZE then EXTRA_SIZE else 0)
    }

    constructor (initialSize: nat)
      ensures Valid() && fresh(store) && Content() == []
      ensures store.Length == CHEAP_PREPEND + initialSize
    {
      store := new byte[CHEAP_PREPEND + initialSize](_ => 0);
      reader, writer := CHEAP_PREPEND, CHEAP_PREPEND;
    }

    method RetrieveAll()
      requires Valid()
      modifies this`reader, this`writer
      ensures Valid() && Content() == []
      ensures reader == CHEAP_PREPEND
    {
      reader, writer := CHEAP_PREPEND, CHEAP_PREPEND;
    }

    /** Drops a prefix; asking for too much empties the buffer. */
    method Retrieve(len: nat)
      requires Valid()
      modifies this`reader, this`writer
      ensures Valid()
      ensures Content() == if len < old(|Content()|) then old(Content())[len..] else []
    {
      if len < ReadableBytes() {
        reader := reader + len;
      } else {
        RetrieveAll();
      }
    }

    method RetrieveAsString(len: nat) returns (text: seq<byte>)
      requires Valid() && len <= ReadableBytes()
      modifies this`reader, this`writer
      ensures Valid()
      ensures text + Content() == old(Content()) && |text| == len
    {
      text := store[reader..reader + len];
      Retrieve(len);
    }

    /** Moves the content to the front. The copy runs forward in place, which is right
        because the destination lies before the source. */
    method Compact()
      requires Valid() && reader > CHEAP_PREPEND
      modifies this`reader, this`writer, store
      ensures Valid() && reader == CHEAP_PREPEND
      ensures Content() == old(Content())
    {
      ghost var content := Content();
      var readable := ReadableBytes();
      var i := 0;
      while i < readable
        modifies store
        invariant 0 <= i <= readable
        invariant forall k :: 0 <= k < i ==> store[CHEAP_PREPEND + k] == content[k]
        invariant forall k :: i <= k < readable ==> store[reader + k] == content[k]
      {
        store[CHEAP_PREPEND + i] := store[reader + i];
        i := i + 1;
      }
      reader := CHEAP_PREPEND;
      writer := reader + readable;
    }

    /** `makeSpace`: a larger array, or the content moved to the front when the space
        already read is enough. */
    method MakeSpace(len: nat)
      requires Valid() && WritableBytes() < len
      modifies this, store
      ensures Valid() && (store == old(store) || fresh(store))
      ensures Content() == old(Content())
      ensures WritableBytes() >= len
      ensures store == old(store) <==> old(WritableBytes() + reader >= len + CHEAP_PREPEND)
      ensures store == old(store) ==> old(reader) > CHEAP_PREPEND && reader == CHEAP_PREPEND
      ensures store != old(store) ==> WritableBytes() == len && reader == old(reader)
    {
      if WritableBytes() + reader < len + CHEAP_PREPEND {
        var larger := new byte[writer + len](_ => 0);
        forall i | 0 <= i < store.Length {
          larger[i] := store[i];
        }
        store := larger;
      } else {
        Compact();
      }
    }

    method EnsureWritableBytes(len: nat)
      requires Valid()
      modifies this, store
      ensures Valid() && (store == old(store) || fresh(store))
      ensures Content() == old(Content())
      ensures WritableBytes() >= len
    {
      if WritableBytes() < len {
        MakeSpace(len);
      }
    }

    /** Copies bytes behind the writer and advances it. */
    method Fill(data: seq<byte>)
      requires Valid() && |data| <= WritableBytes()
      modifies this`writer, store
      ensures Valid() && reader == old(reader)
      ensures Content() == old(Content()) + data
    {
      ghost var content := Content();
      var i := 0;
      while i < |data|
        modifies store
        invariant 0 <= i <= |data|
        invariant store[reader..writer] == content
        invariant store[writer..writer + i] == data[..i]
      {
        store[writer + i] := data[i];
        i := i + 1;
      }
      assert store[reader..writer + i] == content + data;
      writer := writer + |data|;
    }

    method Append(data: seq<byte>)
      requires Valid()
      modifies this, store
      ensures Valid() && (store == old(store) || fresh(store))
      ensures Content() == old(Content()) + data
    {
      EnsureWritableBytes(|data|);
      Fill(data);
    }

    /** `readFd`: the kernel scatters the bytes over the free tail and the stack segment;
        what went to the segment is appended. Either way the content grows by exactly the
        bytes delivered, and an error leaves it alone. */
    method ReadFd(outcome: ReadOutcome) returns (n: int, savedErrno: int)
      requires Valid()
      requires outcome.Got? ==> |outcome.bytes| <= ReadCapacity()
      modifies this, store
      ensures Valid() && (store == old(store) || fresh(store))
      ensures outcome.Got? ==> n == |outcome.bytes| && Content() == old(Content()) + outcome.bytes
      ensures outcome.Failed? ==> n == -1 && savedErrno == outcome.errno && Content() == old(Content())
    {
      savedErrno := 0;
      match outcome {
        case Failed(errno) =>
          n, savedErrno := -1, errno;
        case Got(bytes) =>
          n := |bytes|;
          var writable := WritableBytes();
          if n <= writable {
            Fill(bytes);
          } else {
            Fill(bytes[..writable]);
            assert bytes == bytes[..writable] + bytes[writable..];
            Append(bytes[writable..]);
          }
      }
    }
  }
}
