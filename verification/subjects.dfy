/**
 * Change subjects: what a logged change did to the world, and how it is
 * written to and read back from the `events` table.
 *
 * A `BlockSubject` records a block's state before (`from`) and after (`to`)
 * the change together with their block-entity tags; a `RestorationSubject`
 * records an id under some change type. `SubjectFactory` rebuilds a subject
 * from the stored columns.
 */
module Subjects {
  import opened Wrappers
  import opened JavaLang
  import opened Blocks

  // ---------------------------------------------------------------------------
  // Change types

  /**
   * A constant of the `ChangeType` enum, by name. The enum's declaration is not
   * part of this model: the set of declared names is passed in where
   * `ChangeType.valueOf` is called, and it always holds `"BLOCK"`.
   */
  datatype ChangeType = ChangeType(name: string)

  const BLOCK: ChangeType := ChangeType("BLOCK")

  /** `ChangeType.valueOf(name)`: exact, case-sensitive lookup; an undeclared name throws. */
  function TypeValueOf(declared: set<string>, name: string): (r: Result<ChangeType, Throwable>)
    ensures r.Ok? <==> name in declared
    ensures r.Ok? ==> r.value.name == name
    ensures r.Err? ==> r.error.IllegalArgumentException?
  {
    if name in declared then Ok(ChangeType(name))
    else Err(IllegalArgumentException("No enum constant ChangeType." + name))
  }

  // ---------------------------------------------------------------------------
  // Block subjects

  /**
   * `BlockSubject`. The flags `oldFull`/`newFull` are fixed by the constructor:
   * they say whether the corresponding tag has any entries.
   */
  datatype BlockSubject = BlockSubject(
    from: BlockData,
    to: BlockData,
    oldState: CompoundTag,
    newState: CompoundTag,
    oldFull: bool,
    newFull: bool)
  {
    /** The relation the constructor establishes between the tags and the flags. */
    predicate Valid() {
      oldFull == !oldState.IsEmpty() && newFull == !newState.IsEmpty()
    }
  }

  /** `BlockSubject.of(from, to)`: block data and tags are taken from the two wrappers. */
  function BlockSubjectOf(from: BlockWrapper, to: BlockWrapper): (s: BlockSubject)
    ensures s.Valid()
    ensures s.from == from.blockData && s.to == to.blockData
    ensures s.oldState == from.blockState && s.newState == to.blockState
    ensures s.oldFull <==> !from.blockState.IsEmpty()
    ensures s.newFull <==> !to.blockState.IsEmpty()
  {
    BlockSubject(from.blockData, to.blockData, from.blockState, to.blockState,
      !from.blockState.IsEmpty(), !to.blockState.IsEmpty())
  }

  /**
   * `serializeOldState`: the old tag's bytes when the old tag is non-empty,
   * otherwise no bytes. (The tag fields are never null: a wrapper replaces a
   * missing tag by `EMPTY`, so the `newState == null` test never fires.)
   */
  function SerializeOldState(s: BlockSubject): (bytes: seq<byte>)
    requires s.Valid()
    ensures BytesToCompound(bytes) == s.oldState
    ensures |bytes| == 0 <==> !s.oldFull
  {
    if !s.oldFull then [] else CompoundToBytes(s.oldState)
  }

  /**
   * `serializeNewState` as the source writes it: the guard tests `oldFull`,
   * the flag of the OTHER tag, so the new tag is dropped whenever the old one
   * is empty, and an empty new tag is written whenever the old one is not.
   */
  function SerializeNewStateAsWritten(s: BlockSubject): (bytes: seq<byte>)
    requires s.Valid()
    ensures !s.oldFull ==> |bytes| == 0
    ensures s.oldFull ==> BytesToCompound(bytes) == s.newState
  {
    if !s.oldFull then [] else CompoundToBytes(s.newState)
  }

  /** `serializeNewState` with the guard on `newFull`, as `serializeOldState` guards on `oldFull`. */
  function SerializeNewState(s: BlockSubject): (bytes: seq<byte>)
    requires s.Valid()
    ensures BytesToCompound(bytes) == s.newState
    ensures |bytes| == 0 <==> !s.newFull
  {
    if !s.newFull then [] else CompoundToBytes(s.newState)
  }

  /** The as-written serialisation loses a non-empty new tag paired with an empty old one. */
  lemma SerializeNewStateAsWrittenLosesTag()
    ensures var s := BlockSubjectOf(WrapperOf(BlockData("minecraft:air")),
                                    BlockWrapper(BlockData("minecraft:chest"), CompoundTag([1])));
      && s.newFull
      && SerializeNewStateAsWritten(s) == []
      && BytesToCompound(SerializeNewStateAsWritten(s)) != s.newState
  {
    var s := BlockSubjectOf(WrapperOf(BlockData("minecraft:air")),
                            BlockWrapper(BlockData("minecraft:chest"), CompoundTag([1])));
    assert !s.oldFull;
    assert BytesToCompound([]) == EMPTY != s.newState;
  }

  /** The two serialisations agree exactly when the two flags agree or the new tag is empty anyway. */
  lemma SerializeNewStateAgreement(s: BlockSubject)
    requires s.Valid()
    ensures SerializeNewStateAsWritten(s) == SerializeNewState(s) <==> (s.oldFull == s.newFull || !s.newFull)
  {
    if s.oldFull && !s.newFull {
      assert SerializeNewState(s) == [];
      assert SerializeNewStateAsWritten(s) == CompoundToBytes(s.newState) == [];
    }
  }

  /** `getFromFull`: the `from` state, carrying the old tag exactly when `oldFull`. */
  function GetFromFull(s: BlockSubject): (b: BaseBlock)
    requires s.Valid()
    ensures b.state == s.from
    ensures b.nbt.Some? <==> s.oldFull
    ensures WrapperOfBase(b).blockState == s.oldState
  {
    if s.oldFull then BaseBlock(s.from, Some(s.oldState)) else BaseBlock(s.from, None)
  }

  /** `getToFull`: the `to` state, carrying the new tag exactly when `newFull`. */
  function GetToFull(s: BlockSubject): (b: BaseBlock)
    requires s.Valid()
    ensures b.state == s.to
    ensures b.nbt.Some? <==> s.newFull
    ensures WrapperOfBase(b).blockState == s.newState
  {
    if s.newFull then BaseBlock(s.to, Some(s.newState)) else BaseBlock(s.to, None)
  }

  /** Wrapping `getFromFull`/`getToFull` again gives back the wrappers the subject was built from. */
  lemma FullBlocksRoundTrip(from: BlockWrapper, to: BlockWrapper)
    ensures WrapperOfBase(GetFromFull(BlockSubjectOf(from, to))) == from
    ensures WrapperOfBase(GetToFull(BlockSubjectOf(from, to))) == to
  {
    var s := BlockSubjectOf(from, to);
    if !s.oldFull {
      assert from.blockState == EMPTY;
    }
    if !s.newFull {
      assert to.blockState == EMPTY;
    }
  }

  // ---------------------------------------------------------------------------
  // Restoration subjects

  /** `RestorationSubject`: a change type and an id; it has no block states. */
  datatype RestorationSubject = RestorationSubject(changeType: ChangeType, id: i32)

  // ---------------------------------------------------------------------------
  // The `ChangeSubject` interface over the two implementations

  datatype ChangeSubject =
    | Block(block: BlockSubject)
    | Restoration(restoration: RestorationSubject)
  {
    predicate Valid() {
      Block? ==> block.Valid()
    }
  }

  /** `getType`: always BLOCK for a block subject, the constructor's type for a restoration subject. */
  function GetType(s: ChangeSubject): (t: ChangeType)
    ensures s.Block? ==> t == BLOCK
    ensures s.Restoration? ==> t == s.restoration.changeType
  {
    match s
    case Block(_) => BLOCK
    case Restoration(r) => r.changeType
  }

  /** `serializeFrom`: the `from` state's string, or `"-1"` for a restoration subject. */
  function SerializeFrom(s: ChangeSubject): (r: string)
    ensures s.Block? ==> r == s.block.from.asString
    ensures s.Restoration? ==> ParseInt(r) == Some(-1)
  {
    match s
    case Block(b) => b.from.asString
    case Restoration(_) =>
      IntToStringRoundTrip(-1);
      assert IntToString(-1) == "-1";
      "-1"
  }

  /** `serializeTo`: the `to` state's string, or the id in decimal for a restoration subject. */
  function SerializeTo(s: ChangeSubject): (r: string)
    ensures s.Block? ==> r == s.block.to.asString
    ensures s.Restoration? ==> ParseInt(r) == Some(s.restoration.id)
  {
    match s
    case Block(b) => b.to.asString
    case Restoration(rs) =>
      IntToStringRoundTrip(rs.id);
      IntToString(rs.id)
  }

  /** `serializeOldState`; a restoration subject has no state and writes no bytes. */
  function SubjectOldState(s: ChangeSubject): (bytes: seq<byte>)
    requires s.Valid()
    ensures s.Restoration? ==> bytes == []
    ensures s.Block? ==> BytesToCompound(bytes) == s.block.oldState
  {
    match s
    case Block(b) => SerializeOldState(b)
    case Restoration(_) => []
  }

  /**
   * `serializeNewState` as the program dispatches it, with the guard on the
   * old tag's flag; a restoration subject writes no bytes.
   */
  function SubjectNewState(s: ChangeSubject): (bytes: seq<byte>)
    requires s.Valid()
    ensures s.Restoration? ==> bytes == []
    ensures s.Block? && s.block.oldFull ==> BytesToCompound(bytes) == s.block.newState
    ensures s.Block? && !s.block.oldFull ==> bytes == []
  {
    match s
    case Block(b) => SerializeNewStateAsWritten(b)
    case Restoration(_) => []
  }

  /** `serializeNewState` with the guard on the new tag's flag; a restoration subject writes no bytes. */
  function SubjectNewStateCorrected(s: ChangeSubject): (bytes: seq<byte>)
    requires s.Valid()
    ensures s.Restoration? ==> bytes == []
    ensures s.Block? ==> BytesToCompound(bytes) == s.block.newState
  {
    match s
    case Block(b) => SerializeNewState(b)
    case Restoration(_) => []
  }

  // ---------------------------------------------------------------------------
  // SubjectFactory

  /**
   * `SubjectFactory.getSubject`: an undeclared type name throws; BLOCK parses
   * `from`, then `to`, with `Bukkit.createBlockData`, which throws an
   * illegal-argument exception for a string it cannot parse (`parseable` is the
   * set of strings it accepts), and yields a block subject whose old-state
   * bytes go with `from` and new-state bytes with `to`; any other declared
   * type yields null.
   */
  function GetSubject(declared: set<string>, parseable: set<string>, changeType: string, from: string, to: string,
                      oldState: seq<byte>, newState: seq<byte>): (r: Result<Option<ChangeSubject>, Throwable>)
    ensures r.Err? <==> changeType !in declared || (changeType == BLOCK.name && (from !in parseable || to !in parseable))
    ensures r.Err? ==> r.error.IllegalArgumentException?
    ensures r.Ok? && r.value.Some? <==>
      changeType in declared && changeType == BLOCK.name && from in parseable && to in parseable
    ensures r.Ok? && r.value.Some? ==>
      && r.value.value.Block?
      && r.value.value.Valid()
      && r.value.value.block.from.asString == from
      && r.value.value.block.to.asString == to
      && r.value.value.block.oldState == BytesToCompound(oldState)
      && r.value.value.block.newState == BytesToCompound(newState)
  {
    var t :- TypeValueOf(declared, changeType);
    if t == BLOCK then
      if from !in parseable then Err(IllegalArgumentException("Could not parse data: " + from))
      else if to !in parseable then Err(IllegalArgumentException("Could not parse data: " + to))
      else
        Ok(Some(Block(BlockSubjectOf(WrapperOfBytes(BlockData(from), oldState),
                                     WrapperOfBytes(BlockData(to), newState)))))
    else Ok(None)
  }

  /**
   * Writing a block subject's columns and reading them back through the
   * factory rebuilds the same subject, when the new state is serialised with
   * the corrected guard and both block states parse.
   */
  lemma BlockSubjectColumnsRoundTrip(declared: set<string>, parseable: set<string>, s: BlockSubject)
    requires s.Valid() && BLOCK.name in declared
    requires s.from.asString in parseable && s.to.asString in parseable
    ensures GetSubject(declared, parseable, GetType(Block(s)).name, SerializeFrom(Block(s)), SerializeTo(Block(s)),
                       SubjectOldState(Block(s)), SubjectNewStateCorrected(Block(s))) == Ok(Some(Block(s)))
  {
  }

  /**
   * With the new state serialised as the program does, the same round trip
   * rebuilds the subject exactly when the old tag is non-empty or the new one
   * is empty; otherwise the new tag comes back as `EMPTY`.
   */
  lemma BlockSubjectColumnsAsWritten(declared: set<string>, parseable: set<string>, s: BlockSubject)
    requires s.Valid() && BLOCK.name in declared
    requires s.from.asString in parseable && s.to.asString in parseable
    ensures var r := GetSubject(declared, parseable, GetType(Block(s)).name, SerializeFrom(Block(s)),
                                SerializeTo(Block(s)), SubjectOldState(Block(s)), SubjectNewState(Block(s)));
      && r == Ok(Some(Block(if s.oldFull then s else s.(newState := EMPTY, newFull := false))))
      && (r == Ok(Some(Block(s))) <==> s.oldFull || !s.newFull)
  {
    if !s.oldFull && !s.newFull {
      assert s.newState == EMPTY;
    }
  }

  /** With the as-written new-state serialisation the same round trip fails for some subject. */
  lemma BlockSubjectColumnsAsWrittenFails(declared: set<string>, parseable: set<string>)
    requires BLOCK.name in declared
    requires "minecraft:air" in parseable && "minecraft:chest" in parseable
    ensures exists s: BlockSubject :: (s.Valid() &&
      GetSubject(declared, parseable, BLOCK.name, s.from.asString, s.to.asString,
                 SerializeOldState(s), SerializeNewStateAsWritten(s)) != Ok(Some(Block(s))))
  {
    var s := BlockSubjectOf(WrapperOf(BlockData("minecraft:air")),
                            BlockWrapper(BlockData("minecraft:chest"), CompoundTag([1])));
    SerializeNewStateAsWrittenLosesTag();
    var r := GetSubject(declared, parseable, BLOCK.name, s.from.asString, s.to.asString,
                        SerializeOldState(s), SerializeNewStateAsWritten(s));
    assert r.value.value.block.newState == EMPTY != s.newState;
  }
}
