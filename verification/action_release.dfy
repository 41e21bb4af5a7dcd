/** Releasing a decoded action: `ofl_actions_free` switches on the action's
    type code and decides which heap objects go back to the allocator, and in
    which order.

    Heap objects are named by resource ids. A release is described by the
    list of effects it has, in order: freeing an object, handing the action
    to an experimenter callback, or logging a warning. */
module ActionRelease {
  import opened ByteOrder

  // Action type codes, `enum ofp_action_type` (section A.2.5 of the
  // OpenFlow Switch Specification 1.3).
  const OFPAT_OUTPUT: u16 := 0
  const OFPAT_COPY_TTL_OUT: u16 := 11
  const OFPAT_COPY_TTL_IN: u16 := 12
  const OFPAT_SET_MPLS_TTL: u16 := 15
  const OFPAT_DEC_MPLS_TTL: u16 := 16
  const OFPAT_PUSH_VLAN: u16 := 17
  const OFPAT_POP_VLAN: u16 := 18
  const OFPAT_PUSH_MPLS: u16 := 19
  const OFPAT_POP_MPLS: u16 := 20
  const OFPAT_SET_QUEUE: u16 := 21
  const OFPAT_GROUP: u16 := 22
  const OFPAT_SET_NW_TTL: u16 := 23
  const OFPAT_DEC_NW_TTL: u16 := 24
  const OFPAT_SET_FIELD: u16 := 25
  const OFPAT_PUSH_PBB: u16 := 26
  const OFPAT_POP_PBB: u16 := 27
  const OFPAT_EXPERIMENTER: u16 := 0xffff

  /** The standard types whose internal record owns nothing else. */
  const PLAIN_TYPES: set<u16> :=
    {OFPAT_OUTPUT, OFPAT_COPY_TTL_OUT, OFPAT_COPY_TTL_IN, OFPAT_SET_MPLS_TTL,
     OFPAT_DEC_MPLS_TTL, OFPAT_PUSH_VLAN, OFPAT_POP_VLAN, OFPAT_PUSH_MPLS,
     OFPAT_POP_MPLS, OFPAT_PUSH_PBB, OFPAT_POP_PBB, OFPAT_SET_QUEUE,
     OFPAT_GROUP, OFPAT_SET_NW_TTL, OFPAT_DEC_NW_TTL}

  type ResourceId = nat

  /** The OXM field a SetField action owns, and the value buffer the field owns. */
  datatype Field = Field(id: ResourceId, value: ResourceId)

  /** What the record behind an action header holds beyond the header. */
  datatype Body =
    | Plain
    | SetFieldBody(field: Field)
    | ExperimenterBody

  /** A decoded action: its own heap record, its type code, its body. */
  datatype Action = Action(id: ResourceId, typ: u16, body: Body)

  /** An experimenter release callback, identified by name; what it does is
      up to the vendor code that registered it. */
  datatype Callback = Callback(name: string)

  /** The experimenter callback table, `struct ofl_exp`, down to the one
      slot release uses: `exp->act->free`. */
  datatype ActCallbacks = ActCallbacks(free: Option<Callback>)
  datatype ExpRegistry = ExpRegistry(act: Option<ActCallbacks>)

  datatype Option<T> = None | Some(value: T)

  datatype Effect =
    | Free(id: ResourceId)
    | Invoke(callback: Callback, id: ResourceId)
    | Warn

  /** The free callback reachable through `exp`, if every link is present. */
  function FreeCallback(exp: Option<ExpRegistry>): Option<Callback>
  {
    if exp.Some? && exp.value.act.Some? then exp.value.act.value.free else None
  }

  /** The header says SetField exactly when the record is a SetField record:
      the cast in the source is sound. */
  predicate TypedBody(a: Action)
  {
    a.typ == OFPAT_SET_FIELD <==> a.body.SetFieldBody?
  }

  // ---------------------------------------------------------------------
  // Ownership, independent of how release walks it.

  /** Every heap object the action owns, itself included. */
  function Owned(a: Action): set<ResourceId>
  {
    match a.body
    case SetFieldBody(f) => {a.id, f.id, f.value}
    case _ => {a.id}
  }

  /** Owner and owned: each pair must be freed owned-first. */
  datatype Edge = Edge(owner: ResourceId, owned: ResourceId)

  function Ownership(a: Action): set<Edge>
  {
    match a.body
    case SetFieldBody(f) => {Edge(a.id, f.id), Edge(f.id, f.value)}
    case _ => {}
  }

  /** The owned objects are distinct heap objects. */
  predicate DistinctIds(a: Action)
  {
    match a.body
    case SetFieldBody(f) => a.id != f.id && a.id != f.value && f.id != f.value
    case _ => true
  }

  /** How many times `log` frees `id`. */
  function FreeCount(log: seq<Effect>, id: ResourceId): nat
  {
    multiset(log)[Free(id)]
  }

  /** Each of `ids` is freed exactly once and nothing else is freed. */
  predicate FreesExactly(log: seq<Effect>, ids: set<ResourceId>)
  {
    && (forall id | id in ids :: FreeCount(log, id) == 1)
    && (forall i | 0 <= i < |log| && log[i].Free? :: log[i].id in ids)
  }

  /** Every free of `x` comes before every free of `y`. */
  predicate FreedBefore(log: seq<Effect>, x: ResourceId, y: ResourceId)
  {
    forall i, j | 0 <= i < |log| && 0 <= j < |log| && log[i] == Free(x) && log[j] == Free(y) :: i < j
  }

  predicate Invokes(log: seq<Effect>)
  {
    exists i | 0 <= i < |log| :: log[i].Invoke?
  }

  // ---------------------------------------------------------------------

  /** `ofl_actions_free`. */
  function Release(a: Action, exp: Option<ExpRegistry>): (log: seq<Effect>)
    requires TypedBody(a)
    // without a callback to delegate to, exactly the owned objects are freed
    ensures !Invokes(log) && DistinctIds(a) ==> FreesExactly(log, Owned(a))
    // an owned object is freed before its owner
    ensures DistinctIds(a) ==> forall e | e in Ownership(a) :: FreedBefore(log, e.owned, e.owner)
    // delegation happens only for experimenter actions with a callback, and then nothing is freed here
    ensures Invokes(log) <==> a.typ == OFPAT_EXPERIMENTER && FreeCallback(exp).Some?
    ensures Invokes(log) ==> log == [Invoke(FreeCallback(exp).value, a.id)]
    // the warning is logged exactly when the callback is missing
    ensures Warn in log <==> a.typ == OFPAT_EXPERIMENTER && FreeCallback(exp).None?
  {
    if a.typ == OFPAT_SET_FIELD then
      var f := a.body.field;
      [Free(f.value), Free(f.id), Free(a.id)]
    else if a.typ in PLAIN_TYPES then
      [Free(a.id)]
    else if a.typ == OFPAT_EXPERIMENTER then
      match FreeCallback(exp)
      case None => [Warn, Free(a.id)]
      case Some(cb) => [Invoke(cb, a.id)]
    else
      [Free(a.id)]
  }

  /** SetField frees the value buffer, then the field, then the record,
      each exactly once. */
  lemma ReleaseSetField(a: Action, exp: Option<ExpRegistry>)
    requires TypedBody(a) && a.typ == OFPAT_SET_FIELD && DistinctIds(a)
    ensures var log := Release(a, exp);
      && FreesExactly(log, {a.id, a.body.field.id, a.body.field.value})
      && FreedBefore(log, a.body.field.value, a.body.field.id)
      && FreedBefore(log, a.body.field.id, a.id)
      && !Invokes(log) && Warn !in log
  {
    var log := Release(a, exp);
    assert !Invokes(log);
    assert Edge(a.id, a.body.field.id) in Ownership(a);
    assert Edge(a.body.field.id, a.body.field.value) in Ownership(a);
  }

  /** Any type other than SetField and experimenter, standard or unknown,
      frees only the outer record. */
  lemma ReleaseOther(a: Action, exp: Option<ExpRegistry>)
    requires TypedBody(a) && a.typ != OFPAT_SET_FIELD && a.typ != OFPAT_EXPERIMENTER
    ensures FreesExactly(Release(a, exp), {a.id})
    ensures Warn !in Release(a, exp) && !Invokes(Release(a, exp))
  {
  }

  /** An experimenter action with a registered callback is handed to it once
      and its record is not freed here; without one, a warning is logged and
      only the outer record is freed. */
  lemma ReleaseExperimenter(a: Action, exp: Option<ExpRegistry>)
    requires TypedBody(a) && a.typ == OFPAT_EXPERIMENTER
    ensures var log := Release(a, exp);
      if FreeCallback(exp).Some? then
        log == [Invoke(FreeCallback(exp).value, a.id)] && FreeCount(log, a.id) == 0
      else
        Warn in log && FreesExactly(log, {a.id})
  {
  }
}
