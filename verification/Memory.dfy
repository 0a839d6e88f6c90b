/**
 Word-addressed memory and the layout of what the allocator keeps in it.

 `Mem` maps the byte address of a word to its value. The invariant says that its domain is exactly the memory the
 allocator holds, its own struct and the regions the system gave it. Reading an address needs it to be in the domain;
 a write elsewhere would add to the domain, which the contracts exclude.
 */
module Memory {

  type Mem = map<int, int>

  // Offsets of the words of a `Chunk`, a `TreeChunk` and a `Segment`.
  const HEAD: int := 8
  const PREV: int := 16
  const NEXT: int := 24
  const LEFT: int := 32
  const RIGHT: int := 40
  const PARENT: int := 48
  const INDEX: int := 56

  const SEG_SIZE: int := 8
  const SEG_NEXT: int := 16
  const SEG_FLAGS: int := 24

  // Where the allocator's own struct lives: 66 words of small bins, 32 tree bins and the first segment record.
  const SMALLBINS: int := 16
  const TREEBINS: int := 544
  const SEG: int := 800
  const STRUCT_END: int := 832
  /** The system never hands out memory below this address. */
  const HEAP_START: int := 4096

  /** `smallbin_at`: the bin's header poses as a chunk of which only `prev` and `next` are used. */
  function SmallBinAt(idx: int): int { SMALLBINS + 16 * idx }

  function TreeBinAt(idx: int): int { TREEBINS + 8 * idx }

  ghost predicate SameAt(m: Mem, m': Mem, w: int) { w in m && w in m' && m'[w] == m[w] }

  ghost predicate SameRingWords(m: Mem, m': Mem, c: int) {
    SameAt(m, m', c + PREV) && SameAt(m, m', c + NEXT)
  }
}
