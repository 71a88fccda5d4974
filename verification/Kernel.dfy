/** The ways the kernel can stop, and results that may be such a stop. */
module Kernel {
  /** One constructor per panic() the modelled code can reach syntactically. */
  datatype Why =
    | NoBuffers            // bget: no buffers
    | TooBigTransaction    // log_write: too big a transaction
    | OutOfBlocks          // balloc: out of blocks
    | FreeingFreeBlock     // bfree: freeing free block
    | BmapOutOfRange       // bmap: out of range
    | NoInodes             // ialloc: no inodes
    | NoInodeSlots         // iget: no inodes
    | IreadUnreferenced    // iread
    | IreadNoType          // iread: no type
    | DirlookupNotDir      // dirlookup not DIR
    | DirlookupRead        // dirlookup read
    | DirlinkRead          // dirlink read
    | DirlinkWrite         // dirlink
    | IsdiremptyRead       // isdirempty: readi
    | UnlinkNlink          // unlink: nlink < 1
    | UnlinkWrite          // unlink: writei
    | CreateDots           // create dots
    | CreateDirlink        // create: dirlink
    | FilereadType         // fileread
    | FilewriteType        // filewrite
    | ShortFilewrite       // short filewrite
    | FiledupRef           // filedup
    | FilecloseRef         // fileclose

  /** The two ways in which a transaction that has grown too large ends: the log has no room for one more
      log_write, or, with a buffer held, the cache has no buffer left. */
  predicate TooMuch(why: Why)
  {
    why == TooBigTransaction || why == NoBuffers
  }

  /** A call either returns a value or panics, which halts the machine. */
  datatype Res<+T> = Ok(value: T) | Panic(why: Why)
  {
    predicate IsFailure() { Panic? }

    function PropagateFailure<U>(): Res<U>
      requires Panic?
    {
      Panic(why)
    }

    function Extract(): T
      requires Ok?
    {
      value
    }
  }
}
