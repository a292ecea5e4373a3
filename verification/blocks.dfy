/**
 * Block values as the plugin passes them around: a block state (WorldEdit's
 * `BlockState`, known here only by its string form), an NBT compound tag, and
 * the `BlockWrapper` pair of the two.
 *
 * The NBT/gzip codec is not part of this model. A compound tag is identified
 * with the bytes `NBTUtils.compoundToBytes` produces for it; the only facts the
 * plugin depends on are that the empty tag and the empty byte array
 * correspond, and that decoding undoes encoding.
 */
module Blocks {
  import opened Wrappers
  import opened JavaLang

  /** A block state, e.g. `minecraft:oak_stairs[facing=east]`. */
  datatype BlockData = BlockData(asString: string)

  /** An NBT compound tag; the empty tag has no entries. */
  datatype CompoundTag = CompoundTag(payload: seq<byte>) {
    predicate IsEmpty() {
      |payload| == 0
    }
  }

  /** `BlockWrapper.EMPTY` / `NBTUtils.EMPTY`. */
  const EMPTY: CompoundTag := CompoundTag([])

  /** `NBTUtils.compoundToBytes`: the empty tag encodes to zero bytes. */
  function CompoundToBytes(tag: CompoundTag): (bytes: seq<byte>)
    ensures |bytes| == 0 <==> tag.IsEmpty()
    ensures BytesToCompound(bytes) == tag
  {
    tag.payload
  }

  /**
   * `NBTUtils.bytesToCompound`: zero bytes decode to `EMPTY`. Every byte array
   * is taken to be one `compoundToBytes` produced; the source's fallback to
   * `EMPTY` for bytes that fail to decode is not modelled.
   */
  function BytesToCompound(bytes: seq<byte>): (tag: CompoundTag)
    ensures |bytes| == 0 ==> tag == EMPTY
  {
    CompoundTag(bytes)
  }

  /** A block state together with its (possibly empty) block-entity tag. */
  datatype BlockWrapper = BlockWrapper(blockData: BlockData, blockState: CompoundTag)

  /** `BlockWrapper.of(blockData)`: a wrapper without a tag. */
  function WrapperOf(data: BlockData): (w: BlockWrapper)
    ensures w.blockData == data && w.blockState.IsEmpty()
  {
    BlockWrapper(data, EMPTY)
  }

  /** `new BlockWrapper(blockData, bytes)`: the tag is decoded from serialised bytes. */
  function WrapperOfBytes(data: BlockData, bytes: seq<byte>): (w: BlockWrapper)
    ensures w.blockData == data
    ensures w.blockState.IsEmpty() <==> |bytes| == 0
    ensures CompoundToBytes(w.blockState) == bytes
  {
    BlockWrapper(data, BytesToCompound(bytes))
  }

  /** WorldEdit's `BaseBlock`: a block state with an optional NBT tag. */
  datatype BaseBlock = BaseBlock(state: BlockData, nbt: Option<CompoundTag>)

  /** `BlockWrapper.of(BaseBlock)`: a missing tag becomes `EMPTY`. */
  function WrapperOfBase(b: BaseBlock): (w: BlockWrapper)
    ensures w.blockData == b.state
    ensures b.nbt.None? ==> w.blockState == EMPTY
    ensures b.nbt.Some? ==> w.blockState == b.nbt.value
  {
    BlockWrapper(b.state, if b.nbt.Some? then b.nbt.value else EMPTY)
  }
}
