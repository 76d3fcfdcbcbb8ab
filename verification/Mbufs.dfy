/** slirp/mbuf.c: a message buffer is a block of memory with a window of data in it.
    `head` are the bytes of the block in front of the window (m_data is |head|), `bytes` the window
    itself (m_len is |bytes|) and `room` the free bytes behind it (M_FREEROOM). */
module Mbufs {
  import opened Bytes

  const MINCSIZE: nat := 4096   // how much m_cat grows a full block

  datatype Mbuf = Mbuf(head: seq<byte>, bytes: seq<byte>, room: nat) {
    function Size(): nat { |head| + |bytes| + room }   // m_size
  }

  /** m_adj: a count >= 0 trims the head, a negative one trims the tail. The block stays as it is. */
  function Adj(m: Mbuf, n: int): (r: Mbuf)
    requires 0 <= |m.bytes| + n && n <= |m.bytes|
    ensures r.Size() == m.Size() && r.head + r.bytes <= m.head + m.bytes
    ensures n >= 0 ==> r.bytes == m.bytes[n..] && r.room == m.room
    ensures n < 0 ==> r.bytes == m.bytes[..|m.bytes| + n] && r.head == m.head
  {
    if n >= 0 then m.(head := m.head + m.bytes[..n], bytes := m.bytes[n..])
    else m.(bytes := m.bytes[..|m.bytes| + n], room := m.room - n)
  }

  /** m_inc: move to a block of `size` bytes, keeping the contents and the window. */
  function Inc(m: Mbuf, size: nat): (r: Mbuf)
    ensures r.head == m.head && r.bytes == m.bytes
    ensures r.Size() == if m.Size() > size then m.Size() else size
  {
    if m.Size() > size then m else m.(room := m.room + size - m.Size())
  }

  /** m_cat. The block grows at most once, by MINCSIZE; None is a copy past the end of the block. */
  function Cat(m: Mbuf, n: Mbuf): (r: Option<Mbuf>)
    ensures r.Some? <==> |n.bytes| <= m.room + MINCSIZE
    ensures r.Some? ==> r.value.head == m.head && r.value.bytes == m.bytes + n.bytes
  {
    var big := if m.room < |n.bytes| then Inc(m, m.Size() + MINCSIZE) else m;
    if |n.bytes| <= big.room then Some(big.(bytes := big.bytes + n.bytes, room := big.room - |n.bytes|))
    else None
  }

  /** m_copy: append to n the `len` bytes that start `off` bytes into m; None is the -1 return. */
  function Copy(n: Mbuf, m: Mbuf, off: nat, len: nat): (r: Option<Mbuf>)
    requires off + len <= |m.bytes|
    ensures r.Some? <==> len <= n.room
    ensures r.Some? ==> r.value.head == n.head && r.value.bytes == n.bytes + m.bytes[off..off + len]
    ensures r.Some? ==> r.value.Size() == n.Size()
  {
    if len > n.room then None
    else Some(n.(bytes := n.bytes + m.bytes[off..off + len], room := n.room - len))
  }
}
