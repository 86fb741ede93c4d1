# Member-kind configuration of the JSON Schema generator

This project models the configuration object that the JSON Schema generator keeps for one kind of member
(fields, or methods): `SchemaGeneratorConfigPart`. The object has two parts. First, user code registers
checks and resolvers, each appended to the end of its own ordered list. Second, during generation the
generator asks questions about one member at a time, and the object answers each question by combining
one list with a fixed rule:

- `shouldIgnore` and `isRequired` are **any-match**. The answer is true iff at least one registered
  check holds, so it is false when nothing is registered.
- `isNullable` is a **three-valued policy**. The non-null answers of the checks are collected into a
  set. An empty set gives "absent" (Java `null`). Otherwise the answer is true iff the set contains
  true, so "nullable" beats "not nullable".
- `resolveTargetTypeOverride` and `resolvePropertyNameOverride` are **first-defined**. The answer is
  the value of the earliest-registered resolver that does not answer `null`.

Layout:

- `wrappers.dfy`, module `Wrappers`: `Option`. `None` stands for Java's `null`.
- `attribute_resolution.dfy`, module `AttributeResolution`: the three rules as pure functions over a
  sequence of function values. Beside them are lemmas about appending one entry, order independence,
  and the lattice join that the nullable policy amounts to.
- `schema_generator_config.dfy`, module `SchemaGeneratorConfig`: the class
  `SchemaGeneratorConfigPart<M, T, A>`. Each Java `ArrayList` field is a `seq` field. Each `with…`
  method reassigns exactly one field, as the `modifies this`field` frame states, and returns `this`.
  The queries are functions that read the object.

A `Predicate<M>` is a total function `M -> bool`. A `ConfigFunction<M, X>` is `M -> Option<X>`. The
member type `M`, the resolved type `T` and the instance-attribute override `A` are opaque type
parameters.

The doc comment on `shouldIgnore` (SchemaGeneratorConfigPart.java:87) says that a member is ignored
"if any inclusion check returns false". The code ignores a member when some ignore check returns
*true*. The model follows the code.

## Model

| member | source | states |
|---|---|---|
| `AttributeResolution.AnyMatch` | src/main/java/com/github/victools/jsonschema/generator/SchemaGeneratorConfigPart.java:92-94 | The any-match rule: true iff some registered check holds for the member. It is false for an empty list. |
| `AttributeResolution.AnyMatchAppend` | src/main/java/com/github/victools/jsonschema/generator/SchemaGeneratorConfigPart.java:81-94 | Appending one check changes the any-match answer to the old answer OR that check's answer. |
| `AttributeResolution.AnyMatchOrderIndependent` | src/main/java/com/github/victools/jsonschema/generator/SchemaGeneratorConfigPart.java:113-115 | Two lists that are permutations of each other give the same any-match answer. For lists of non-null checks, registration order does not matter for `shouldIgnore` or `isRequired`. |
| `AttributeResolution.NonNullAnswers` | src/main/java/com/github/victools/jsonschema/generator/SchemaGeneratorConfigPart.java:135-138 | The collected set holds exactly the values `b` for which some check answers non-null `b`. |
| `AttributeResolution.NullablePolicy` | src/main/java/com/github/victools/jsonschema/generator/SchemaGeneratorConfigPart.java:134-140 | Absent iff every check answers null, including when there are no checks. True iff some check answers true. False iff some check answers false and none answers true. |
| `AttributeResolution.NullableJoin` | src/main/java/com/github/victools/jsonschema/generator/SchemaGeneratorConfigPart.java:139 | The combination of two partial nullable answers is one of the two and ranks at least as high as both in the order None < false < true. So it is their least upper bound: "nullable" beats "not nullable", which beats "no answer". |
| `AttributeResolution.NullableJoinLaws` | src/main/java/com/github/victools/jsonschema/generator/SchemaGeneratorConfigPart.java:135-139 | The join is commutative, associative and idempotent, and "no answer" is its unit. These are the laws a set-based collection of answers obeys. |
| `AttributeResolution.NullablePolicyConcat` | src/main/java/com/github/victools/jsonschema/generator/SchemaGeneratorConfigPart.java:135-139 | The policy over `a + b` is the join (None < false < true) of the policy over `a` and over `b`. |
| `AttributeResolution.NullablePolicyIsFold` | src/main/java/com/github/victools/jsonschema/generator/SchemaGeneratorConfigPart.java:134-140 | The set-based policy equals an independent definition: a fold of the three-valued join over the checks' answers. |
| `AttributeResolution.NullablePolicyAppend` | src/main/java/com/github/victools/jsonschema/generator/SchemaGeneratorConfigPart.java:123-139 | Appending one nullable check joins its answer into the previous result. |
| `AttributeResolution.NullableWins` | src/main/java/com/github/victools/jsonschema/generator/SchemaGeneratorConfigPart.java:139 | Once the policy answers "nullable", adding more checks before or after keeps it "nullable". |
| `AttributeResolution.NullablePolicyOrderIndependent` | src/main/java/com/github/victools/jsonschema/generator/SchemaGeneratorConfigPart.java:135-139 | Two permutations of the same checks give the same nullable answer. For lists of non-null checks, registration order does not matter for `isNullable`. |
| `AttributeResolution.FirstDefinedValue` | src/main/java/com/github/victools/jsonschema/generator/SchemaGeneratorConfigPart.java:165-167 | Absent iff every resolver answers null. Otherwise the result is the answer of some resolver `k` such that every resolver before `k` answers null. |
| `AttributeResolution.FirstDefinedAppend` | src/main/java/com/github/victools/jsonschema/generator/SchemaGeneratorConfigPart.java:152-167 | An appended resolver never preempts earlier ones. It is consulted only when all earlier ones answer null. |
| `SchemaGeneratorConfig.SchemaGeneratorConfigPart.constructor` | src/main/java/com/github/victools/jsonschema/generator/SchemaGeneratorConfigPart.java:39-53 | All six lists start empty. Every query gives its default: not ignored, not required, nullable absent, no overrides. |
| `SchemaGeneratorConfig.SchemaGeneratorConfigPart.WithInstanceAttributeOverride` | src/main/java/com/github/victools/jsonschema/generator/SchemaGeneratorConfigPart.java:61-64 | Returns this object. `GetInstanceAttributeOverrides()` grows by exactly the new override at the end. No other list changes. |
| `SchemaGeneratorConfig.SchemaGeneratorConfigPart.GetInstanceAttributeOverrides` | src/main/java/com/github/victools/jsonschema/generator/SchemaGeneratorConfigPart.java:71-73 | Returns the registered overrides. They come in registration order because the constructor starts with none (`instanceAttributeOverrides == []`) and `WithInstanceAttributeOverride` ensures `GetInstanceAttributeOverrides() == old(GetInstanceAttributeOverrides()) + [override]`. |
| `SchemaGeneratorConfig.SchemaGeneratorConfigPart.WithIgnoreCheck` | src/main/java/com/github/victools/jsonschema/generator/SchemaGeneratorConfigPart.java:81-84 | Returns this object. It appends the check to the ignore list only. Afterwards `ShouldIgnore(m)` equals the old answer OR `check(m)` for every member. |
| `SchemaGeneratorConfig.SchemaGeneratorConfigPart.ShouldIgnore` | src/main/java/com/github/victools/jsonschema/generator/SchemaGeneratorConfigPart.java:86-94 | A member is ignored iff some registered ignore check returns true for it. |
| `SchemaGeneratorConfig.SchemaGeneratorConfigPart.WithRequiredCheck` | src/main/java/com/github/victools/jsonschema/generator/SchemaGeneratorConfigPart.java:102-105 | Returns this object. It appends the check to the required list only. Afterwards `IsRequired(m)` equals the old answer OR `check(m)`. |
| `SchemaGeneratorConfig.SchemaGeneratorConfigPart.IsRequired` | src/main/java/com/github/victools/jsonschema/generator/SchemaGeneratorConfigPart.java:107-115 | A member is required iff some registered required check returns true for it. |
| `SchemaGeneratorConfig.SchemaGeneratorConfigPart.WithNullableCheck` | src/main/java/com/github/victools/jsonschema/generator/SchemaGeneratorConfigPart.java:123-126 | Returns this object. It appends the check to the nullable list only. Afterwards `IsNullable(m)` is the join of the old answer and `check(m)`. |
| `SchemaGeneratorConfig.SchemaGeneratorConfigPart.IsNullable` | src/main/java/com/github/victools/jsonschema/generator/SchemaGeneratorConfigPart.java:128-140 | Absent iff every nullable check answers null. True iff some check answers true. False iff some check answers false and none answers true. |
| `SchemaGeneratorConfig.SchemaGeneratorConfigPart.WithTargetTypeOverrideResolver` | src/main/java/com/github/victools/jsonschema/generator/SchemaGeneratorConfigPart.java:152-155 | Returns this object. It appends the resolver to the target-type list only. The new resolver decides a member's override only when the earlier ones gave none. |
| `SchemaGeneratorConfig.SchemaGeneratorConfigPart.ResolveTargetTypeOverride` | src/main/java/com/github/victools/jsonschema/generator/SchemaGeneratorConfigPart.java:157-167 | Returns the answer of the earliest-registered target-type resolver that is not null. It is absent iff all of them answer null. |
| `SchemaGeneratorConfig.SchemaGeneratorConfigPart.WithPropertyNameOverrideResolver` | src/main/java/com/github/victools/jsonschema/generator/SchemaGeneratorConfigPart.java:175-178 | Returns this object. It appends the resolver to the property-name list only. The new resolver decides a member's name only when the earlier ones gave none. |
| `SchemaGeneratorConfig.SchemaGeneratorConfigPart.ResolvePropertyNameOverride` | src/main/java/com/github/victools/jsonschema/generator/SchemaGeneratorConfigPart.java:180-188 | Returns the answer of the earliest-registered property-name resolver that is not null. It is absent iff all of them answer null. |

## Left out

- The overriding `with…Resolver` methods (title, description, default, enum, string, number and array
  constraints; SchemaGeneratorConfigPart.java:190-278). They only cast the result of the superclass
  method. `SchemaGeneratorTypeConfigPart` is not part of this model.
- `getFirstDefinedValue` is defined in that superclass, which is not part of this model.
  `AttributeResolution.FirstDefinedValue` models it as a search, in list order, for the first non-null
  answer.
- `SchemaGeneratorConfig.SchemaGeneratorConfigPart.GetInstanceAttributeOverrides` returns the list as
  a value. The Java method returns a live, unmodifiable view that also shows later registrations. That
  aliasing is not modelled.
- Null registrations are not modelled. Java's `ArrayList.add` accepts `null` in every `with…` method
  (SchemaGeneratorConfigPart.java:62, 82, 103, 124, 153, 176), and a query that reaches a null entry
  throws `NullPointerException`. A Dafny function value cannot be null, so that error path is absent.
- AttributeResolution.AnyMatchOrderIndependent: holds of the Java code only when every registered
  check is non-null. `anyMatch` stops at the first check that holds, so `[m -> true, null]` answers
  true while `[null, m -> true]` throws.
- AttributeResolution.NullablePolicyOrderIndependent: holds of the Java code only when every
  registered check is non-null. `isNullable` applies every check, so a null entry throws whatever the
  order.
- AttributeResolution.FirstDefinedValue: the first-defined result is stated only for lists of
  non-null resolvers. The superclass helper's behaviour on a null entry is not part of this model.
- User-supplied checks and resolvers are pure, total functions. Exceptions and side effects inside
  them are not modelled.
- `MemberScope`, `ResolvedType` and `InstanceAttributeOverride` are opaque type parameters. The member
  type is declared `!new`: members are values that a registration cannot create.
- The type-graph walk, definition naming and JSON node assembly are not part of this model.
