/**
 * The per-member-kind configuration of the schema generator (for fields, or for
 * methods): ordered, append-only lists of user-supplied checks and resolvers,
 * and the queries that combine each list into one answer for a given member.
 *
 * Type parameters: `M` is the member being analysed, `T` a resolved type, `A`
 * an override of a schema node's instance attributes. All three are opaque.
 */
module SchemaGeneratorConfig {
  import opened Wrappers
  import opened AttributeResolution

  class SchemaGeneratorConfigPart<M(!new), T, A> {
    // Registered entries, each list in registration order.
    var instanceAttributeOverrides: seq<A>
    var ignoreChecks: seq<M -> bool>
    var requiredChecks: seq<M -> bool>
    var nullableChecks: seq<M -> Option<bool>>
    var targetTypeOverrideResolvers: seq<M -> Option<T>>
    var propertyNameOverrideResolvers: seq<M -> Option<string>>

    /** A fresh configuration has nothing registered, so every query gives its default. */
    constructor ()
      ensures instanceAttributeOverrides == [] && ignoreChecks == [] && requiredChecks == []
      ensures nullableChecks == [] && targetTypeOverrideResolvers == [] && propertyNameOverrideResolvers == []
      ensures forall m :: !ShouldIgnore(m) && !IsRequired(m) && IsNullable(m).None?
      ensures forall m :: ResolveTargetTypeOverride(m).None? && ResolvePropertyNameOverride(m).None?
    {
      instanceAttributeOverrides := [];
      ignoreChecks := [];
      requiredChecks := [];
      nullableChecks := [];
      targetTypeOverrideResolvers := [];
      propertyNameOverrideResolvers := [];
    }

    // -------------------------------------------------------------------------
    // Instance attribute overrides
    // -------------------------------------------------------------------------

    /** Appends one override and returns this configuration, for chaining. */
    method WithInstanceAttributeOverride(override: A) returns (self: SchemaGeneratorConfigPart<M, T, A>)
      modifies this`instanceAttributeOverrides
      ensures self == this
      ensures GetInstanceAttributeOverrides() == old(GetInstanceAttributeOverrides()) + [override]
    {
      instanceAttributeOverrides := instanceAttributeOverrides + [override];
      self := this;
    }

    /**
     * The registered overrides, as a read-only value. That they come in
     * registration order follows from the constructor (no overrides) and from
     * WithInstanceAttributeOverride (exactly one more, at the end).
     */
    function GetInstanceAttributeOverrides(): (r: seq<A>)
      reads this
      ensures r == instanceAttributeOverrides
    {
      instanceAttributeOverrides
    }

    // -------------------------------------------------------------------------
    // Ignore checks
    // -------------------------------------------------------------------------

    /** Appends one ignore check; a member is then also ignored when that check holds. */
    method WithIgnoreCheck(check: M -> bool) returns (self: SchemaGeneratorConfigPart<M, T, A>)
      modifies this`ignoreChecks
      ensures self == this
      ensures ignoreChecks == old(ignoreChecks) + [check]
      ensures forall m :: ShouldIgnore(m) == (old(ShouldIgnore(m)) || check(m))
    {
      ignoreChecks := ignoreChecks + [check];
      forall m ensures ShouldIgnore(m) == (old(ShouldIgnore(m)) || check(m)) {
        AnyMatchAppend(old(ignoreChecks), check, m);
      }
      self := this;
    }

    /** A member is ignored iff some registered ignore check holds for it. */
    function ShouldIgnore(member: M): (r: bool)
      reads this
      ensures r <==> exists i :: 0 <= i < |ignoreChecks| && ignoreChecks[i](member)
    {
      AnyMatch(ignoreChecks, member)
    }

    // -------------------------------------------------------------------------
    // Required checks
    // -------------------------------------------------------------------------

    /** Appends one required check; a member is then also required when that check holds. */
    method WithRequiredCheck(check: M -> bool) returns (self: SchemaGeneratorConfigPart<M, T, A>)
      modifies this`requiredChecks
      ensures self == this
      ensures requiredChecks == old(requiredChecks) + [check]
      ensures forall m :: IsRequired(m) == (old(IsRequired(m)) || check(m))
    {
      requiredChecks := requiredChecks + [check];
      forall m ensures IsRequired(m) == (old(IsRequired(m)) || check(m)) {
        AnyMatchAppend(old(requiredChecks), check, m);
      }
      self := this;
    }

    /** A member is required iff some registered required check holds for it. */
    function IsRequired(member: M): (r: bool)
      reads this
      ensures r <==> exists i :: 0 <= i < |requiredChecks| && requiredChecks[i](member)
    {
      AnyMatch(requiredChecks, member)
    }

    // -------------------------------------------------------------------------
    // Nullable checks
    // -------------------------------------------------------------------------

    /** Appends one nullable check; its answer is joined into every later nullable result. */
    method WithNullableCheck(check: M -> Option<bool>) returns (self: SchemaGeneratorConfigPart<M, T, A>)
      modifies this`nullableChecks
      ensures self == this
      ensures nullableChecks == old(nullableChecks) + [check]
      ensures forall m :: IsNullable(m) == NullableJoin(old(IsNullable(m)), check(m))
    {
      nullableChecks := nullableChecks + [check];
      forall m ensures IsNullable(m) == NullableJoin(old(IsNullable(m)), check(m)) {
        NullablePolicyAppend(old(nullableChecks), check, m);
      }
      self := this;
    }

    /**
     * Absent when no check answers; otherwise nullable iff some check says
     * nullable, whatever the others say.
     */
    function IsNullable(member: M): (r: Option<bool>)
      reads this
      ensures r.None? <==> forall i :: 0 <= i < |nullableChecks| ==> nullableChecks[i](member).None?
      ensures r == Some(true) <==>
                exists i :: 0 <= i < |nullableChecks| && nullableChecks[i](member) == Some(true)
      ensures r == Some(false) <==>
                (exists i :: 0 <= i < |nullableChecks| && nullableChecks[i](member) == Some(false)) &&
                (forall i :: 0 <= i < |nullableChecks| ==> nullableChecks[i](member) != Some(true))
    {
      NullablePolicy(nullableChecks, member)
    }

    // -------------------------------------------------------------------------
    // Target type overrides
    // -------------------------------------------------------------------------

    /** Appends one resolver; it is consulted only when all earlier ones answer null. */
    method WithTargetTypeOverrideResolver(resolver: M -> Option<T>) returns (self: SchemaGeneratorConfigPart<M, T, A>)
      modifies this`targetTypeOverrideResolvers
      ensures self == this
      ensures targetTypeOverrideResolvers == old(targetTypeOverrideResolvers) + [resolver]
      ensures forall m :: ResolveTargetTypeOverride(m) ==
                if old(ResolveTargetTypeOverride(m)).Some? then old(ResolveTargetTypeOverride(m)) else resolver(m)
    {
      targetTypeOverrideResolvers := targetTypeOverrideResolvers + [resolver];
      forall m ensures ResolveTargetTypeOverride(m) ==
                 if old(ResolveTargetTypeOverride(m)).Some? then old(ResolveTargetTypeOverride(m)) else resolver(m)
      {
        FirstDefinedAppend(old(targetTypeOverrideResolvers), resolver, m);
      }
      self := this;
    }

    /** The answer of the earliest-registered resolver that does not answer null. */
    function ResolveTargetTypeOverride(member: M): (r: Option<T>)
      reads this
      ensures r.None? <==>
                forall i :: 0 <= i < |targetTypeOverrideResolvers| ==> targetTypeOverrideResolvers[i](member).None?
      ensures r.Some? ==>
                exists k :: 0 <= k < |targetTypeOverrideResolvers| && targetTypeOverrideResolvers[k](member) == r &&
                            forall j :: 0 <= j < k ==> targetTypeOverrideResolvers[j](member).None?
    {
      FirstDefinedValue(targetTypeOverrideResolvers, member)
    }

    // -------------------------------------------------------------------------
    // Property name overrides
    // -------------------------------------------------------------------------

    /** Appends one resolver; it is consulted only when all earlier ones answer null. */
    method WithPropertyNameOverrideResolver(resolver: M -> Option<string>) returns (self: SchemaGeneratorConfigPart<M, T, A>)
      modifies this`propertyNameOverrideResolvers
      ensures self == this
      ensures propertyNameOverrideResolvers == old(propertyNameOverrideResolvers) + [resolver]
      ensures forall m :: ResolvePropertyNameOverride(m) ==
                if old(ResolvePropertyNameOverride(m)).Some? then old(ResolvePropertyNameOverride(m)) else resolver(m)
    {
      propertyNameOverrideResolvers := propertyNameOverrideResolvers + [resolver];
      forall m ensures ResolvePropertyNameOverride(m) ==
                 if old(ResolvePropertyNameOverride(m)).Some? then old(ResolvePropertyNameOverride(m)) else resolver(m)
      {
        FirstDefinedAppend(old(propertyNameOverrideResolvers), resolver, m);
      }
      self := this;
    }

    /** The answer of the earliest-registered resolver that does not answer null. */
    function ResolvePropertyNameOverride(member: M): (r: Option<string>)
      reads this
      ensures r.None? <==>
                forall i :: 0 <= i < |propertyNameOverrideResolvers| ==> propertyNameOverrideResolvers[i](member).None?
      ensures r.Some? ==>
                exists k :: 0 <= k < |propertyNameOverrideResolvers| && propertyNameOverrideResolvers[k](member) == r &&
                            forall j :: 0 <= j < k ==> propertyNameOverrideResolvers[j](member).None?
    {
      FirstDefinedValue(propertyNameOverrideResolvers, member)
    }
  }
}
