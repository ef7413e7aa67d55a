/** Buffers (ngx_buf_t behind NgxBuf) and the value a downstream filter sees in one. */
module Buffers {
  type Byte = b: int | 0 <= b < 256

  /** What one chain link carries: the readable bytes and the two end flags. */
  datatype Piece = Piece(bytes: seq<Byte>, lastBuf: bool, lastInChain: bool)

  class Buf {
    var bytes: seq<Byte>      // from pos to last, or from file_pos to file_last when not in memory
    var memory: bool          // the bytes are in memory
    var room: nat             // what the buffer's own memory has room for
    var lastBuf: bool
    var lastInChain: bool

    /** ngx_pcalloc: every field is zero. */
    constructor ()
      ensures bytes == [] && !memory && room == 0 && !lastBuf && !lastInChain
    {
      bytes, memory, room, lastBuf, lastInChain := [], false, 0, false, false;
    }

    /** ngx_buf_size */
    function Size(): nat
      reads this
    {
      |bytes|
    }

    /** NgxBuf::last */
    predicate Last()
      reads this
    {
      lastBuf || lastInChain
    }

    function ToPiece(): Piece
      reads this
    {
      Piece(bytes, lastBuf, lastInChain)
    }

    /** NgxBuf::range */
    method Range(s: seq<Byte>)
      modifies this`bytes, this`memory
      ensures memory && bytes == s
    {
      bytes, memory := s, true;
    }

    /** NgxBuf::finish */
    method Finish(flag: bool)
      modifies this`lastBuf, this`lastInChain
      ensures lastBuf == lastInChain == flag
    {
      lastBuf := flag;
      lastInChain := flag;
    }
  }
}
