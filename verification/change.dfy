/**
 * A logged change (`Change`) and its builder (`Change.ChangeBuilder`).
 *
 * A change records who caused it (its source), where, what happened (its
 * subject), why (its reason) and when. The builder fills the fields one at a
 * time and `build` checks that the mandatory ones are set.
 */
module ChangeModel {
  import opened Wrappers
  import opened JavaLang
  import opened Geometry
  import opened Subjects

  /** The originator of a change, known by its name (a player or the server). */
  datatype ChangeSource = ChangeSource(name: string)

  /**
   * A constant of the `ChangeReason` enum, by name. The enum's declaration is
   * not part of this model; the plugin names three of its constants.
   */
  datatype ChangeReason = ChangeReason(name: string)

  const BLOCK_BREAK: ChangeReason := ChangeReason("BLOCK_BREAK")
  const BLOCK_PLACE: ChangeReason := ChangeReason("BLOCK_PLACE")
  const RESTORATION: ChangeReason := ChangeReason("RESTORATION")

  /** `ChangeReason.valueOf(name)`: exact lookup among the declared names; anything else throws. */
  function ReasonValueOf(declared: set<string>, name: string): (r: Result<ChangeReason, Throwable>)
    ensures r.Ok? <==> name in declared
    ensures r.Ok? ==> r.value.name == name
    ensures r.Err? ==> r.error.IllegalArgumentException?
  {
    if name in declared then Ok(ChangeReason(name))
    else Err(IllegalArgumentException("No enum constant ChangeReason." + name))
  }

  /**
   * A built change. The subject is `None` when the builder never received one:
   * `build` does not check it.
   */
  datatype Change = Change(
    source: ChangeSource,
    location: Location,
    subject: Option<ChangeSubject>,
    reason: ChangeReason,
    timestamp: i64)

  /** The builder's fields; `None` is a field not yet set. */
  datatype ChangeBuilder = ChangeBuilder(
    source: Option<ChangeSource>,
    location: Option<Location>,
    subject: Option<ChangeSubject>,
    reason: Option<ChangeReason>,
    time: i64)

  /** `Change.newBuilder()` at wall-clock time `now`: nothing set, the time defaults to `now`. */
  function NewBuilder(now: i64): (b: ChangeBuilder)
    ensures b.source.None? && b.location.None? && b.subject.None? && b.reason.None?
    ensures b.time == now
  {
    ChangeBuilder(None, None, None, None, now)
  }

  /** `withSource`: sets the source and nothing else. */
  function WithSource(b: ChangeBuilder, source: ChangeSource): (r: ChangeBuilder)
    ensures r.source == Some(source)
    ensures r.(source := b.source) == b
  {
    b.(source := Some(source))
  }

  /** `atLocation`: sets the location and nothing else. */
  function AtLocation(b: ChangeBuilder, location: Location): (r: ChangeBuilder)
    ensures r.location == Some(location)
    ensures r.(location := b.location) == b
  {
    b.(location := Some(location))
  }

  /** `withSubject`: sets the subject and nothing else. */
  function WithSubject(b: ChangeBuilder, subject: ChangeSubject): (r: ChangeBuilder)
    ensures r.subject == Some(subject)
    ensures r.(subject := b.subject) == b
  {
    b.(subject := Some(subject))
  }

  /** `withReason`: sets the reason and nothing else. */
  function WithReason(b: ChangeBuilder, reason: ChangeReason): (r: ChangeBuilder)
    ensures r.reason == Some(reason)
    ensures r.(reason := b.reason) == b
  {
    b.(reason := Some(reason))
  }

  /** `atTime`: replaces the timestamp and nothing else. */
  function AtTime(b: ChangeBuilder, time: i64): (r: ChangeBuilder)
    ensures r.time == time
    ensures r.(time := b.time) == b
  {
    b.(time := time)
  }

  /**
   * `build`: fails with a null-pointer exception when the source, the location
   * or the reason is unset. The check meant for the subject tests the location
   * a second time, so an unset subject is not detected.
   */
  function Build(b: ChangeBuilder): (r: Result<Change, Throwable>)
    ensures r.Ok? <==> b.source.Some? && b.location.Some? && b.reason.Some?
    ensures r.Err? ==> r.error.NullPointerException?
    ensures r.Ok? ==>
      && r.value.source == b.source.value
      && r.value.location == b.location.value
      && r.value.subject == b.subject
      && r.value.reason == b.reason.value
      && r.value.timestamp == b.time
  {
    if b.source.None? then Err(NullPointerException("Source needs to be set"))
    else if b.location.None? then Err(NullPointerException("Location needs to be set"))
    else if b.location.None? then Err(NullPointerException("Subject may not be null"))
    else if b.reason.None? then Err(NullPointerException("Reason may not be null"))
    else Ok(Change(b.source.value, b.location.value, b.subject, b.reason.value, b.time))
  }

  /** The usual chain builds a change holding exactly the values given, stamped with `now` unless `atTime` is used. */
  lemma BuildChain(now: i64, source: ChangeSource, location: Location, subject: ChangeSubject, reason: ChangeReason)
    ensures Build(WithSubject(WithReason(WithSource(AtLocation(NewBuilder(now), location), source), reason), subject))
      == Ok(Change(source, location, Some(subject), reason, now))
  {
  }

  /** `atTime` replaces the default timestamp and changes nothing else. */
  lemma BuildAtTime(b: ChangeBuilder, time: i64)
    ensures Build(AtTime(b, time)).Ok? <==> Build(b).Ok?
    ensures Build(b).Ok? ==> Build(AtTime(b, time)) == Ok(Build(b).value.(timestamp := time))
  {
  }

  /** A builder given everything but a subject still builds, and the change has no subject. */
  lemma BuildWithoutSubject(now: i64, source: ChangeSource, location: Location, reason: ChangeReason)
    ensures var r := Build(WithReason(WithSource(AtLocation(NewBuilder(now), location), source), reason));
      r.Ok? && r.value.subject.None?
  {
  }
}
