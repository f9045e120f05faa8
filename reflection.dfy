/** Resolution of the injection targets of a class from its metadata
    (packages/common/decorators/reflection.ts): one target per managed
    constructor argument, then one per injected property of the class and
    of each class it extends. */
module Reflection {
  import opened Wrappers

  /** The JavaScript values this code inspects: service identifiers, tag
      values and names. */
  datatype Value =
    | Undefined
    | Null
    | Bool(b: bool)
    | Str(s: string)
    /** a class, symbol or other object, compared by identity */
    | Token(id: nat)
    /** the global `Object` constructor */
    | ObjectCtor
    /** the global `Function` constructor */
    | FunctionCtor
    /** a `LazyServiceIdentifer`; `unwrap()` calls its supplier, which returns `supplied` */
    | Lazy(supplied: Value)

  /** JavaScript truthiness, for the values above. */
  predicate Truthy(v: Value) {
    match v
    case Undefined => false
    case Null => false
    case Bool(b) => b
    case Str(s) => s != ""
    case _ => true
  }

  /** JavaScript `a || b`. */
  function Or(a: Value, b: Value): Value {
    if Truthy(a) then a else b
  }

  /** The keys of metadata tags: the four this code reads, and any other. */
  datatype TagKey = InjectTag | MultiInjectTag | NameTag | UnmanagedTag | OtherTag(name: string)

  /** One metadata record attached to a constructor argument or a property. */
  datatype Tag = Tag(key: TagKey, value: Value)

  /** The record `formatTargetMetadata` returns; an absent tag reads as `undefined`. */
  datatype TargetMetadata = TargetMetadata(inject: Value, multiInject: Value, targetName: Value, unmanaged: Value)

  datatype TargetKind = ConstructorArgument | ClassProperty

  /** A resolved injection point, carrying the raw tag list it came from. */
  datatype Target = Target(kind: TargetKind, name: Value, identifier: Value, metadata: seq<Tag>)

  /** A class (its constructor function): its identity (two distinct classes
      never share an `id`, as two distinct functions are never `===`), its
      `name` property, the name the source-text fallback of `getFunctionName`
      derives from it, the number of declared constructor parameters
      (`length`), and the class it extends (`None` when the parent of its
      prototype is `Object.prototype`). */
  datatype ClassDecl = ClassDecl(id: nat, name: string, textName: string, length: nat, base: Option<ClassDecl>)

  /** What the metadata reader knows of a constructor: the parameter types
      the compiler emitted (absent for a class never marked injectable) and
      the user's tags per parameter index. */
  datatype ConstructorMetadata = ConstructorMetadata(compilerGenerated: Option<seq<Value>>, userGenerated: map<nat, seq<Tag>>)

  /** The tags of one injected property, under the property's key. */
  datatype PropertyMetadata = PropertyMetadata(key: string, tags: seq<Tag>)

  /** The metadata reader, as the two queries this code makes of it. */
  datatype MetadataReader = MetadataReader(
    getConstructorMetadata: ClassDecl -> ConstructorMetadata,
    getPropertiesMetadata: ClassDecl -> seq<PropertyMetadata>)

  datatype ResolveError =
    | MissingInjectableAnnotation(className: string)
    | MissingInjectAnnotation(index: nat, className: string)

  /** `getFunctionName`: the `name` property when it is non-empty. */
  function FunctionName(f: ClassDecl): (r: string)
    ensures f.name != "" ==> r == f.name
    ensures f.name == "" ==> r == f.textName
    ensures r == "" ==> f.name == "" && f.textName == ""
  {
    if f.name != "" then f.name else f.textName
  }

  // ---------------------------------------------------------------------
  // formatTargetMetadata

  /** The dictionary `formatTargetMetadata` fills, one tag after another. */
  function TagMap(tags: seq<Tag>): map<TagKey, Value> {
    if tags == [] then map[]
    else
      var last := tags[|tags| - 1];
      TagMap(tags[..|tags| - 1])[last.key := last.value]
  }

  /** The dictionary has exactly the keys that occur in `tags`. */
  lemma {:induction false} TagMapKeys(tags: seq<Tag>)
    ensures TagMap(tags).Keys == set t | t in tags :: t.key
  {
    if tags != [] {
      var front, last := tags[..|tags| - 1], tags[|tags| - 1];
      TagMapKeys(front);
      assert tags == front + [last];
    }
  }

  /** Reading a property of that dictionary. */
  function Read(m: map<TagKey, Value>, key: TagKey): Value {
    if key in m then m[key] else Undefined
  }

  function Format(tags: seq<Tag>): TargetMetadata {
    var m := TagMap(tags);
    TargetMetadata(Read(m, InjectTag), Read(m, MultiInjectTag), Read(m, NameTag), Read(m, UnmanagedTag))
  }

  /** `formatTargetMetadata`: fills a dictionary from the tags in order, then
      exposes the four tags this code reads. */
  method FormatTargetMetadata(tags: seq<Tag>) returns (md: TargetMetadata)
    ensures md == Format(tags)
  {
    var m: map<TagKey, Value> := map[];
    for i := 0 to |tags|
      invariant m == TagMap(tags[..i])
    {
      assert tags[..i + 1][..i] == tags[..i];
      m := m[tags[i].key := tags[i].value];
    }
    assert tags[..|tags|] == tags;
    md := TargetMetadata(Read(m, InjectTag), Read(m, MultiInjectTag), Read(m, NameTag), Read(m, UnmanagedTag));
  }

  /** Last write wins: a key that occurs in `tags` maps to the value of its
      last occurrence. */
  lemma {:induction false} TagMapLastWins(tags: seq<Tag>, j: nat)
    requires j < |tags|
    requires forall l :: j < l < |tags| ==> tags[l].key != tags[j].key
    ensures tags[j].key in TagMap(tags)
    ensures TagMap(tags)[tags[j].key] == tags[j].value
  {
    if j < |tags| - 1 {
      var front := tags[..|tags| - 1];
      assert front[j] == tags[j];
      TagMapLastWins(front, j);
    }
  }

  /** Each field of the formatted record is the value of the last tag with
      that key, or `undefined` when no tag has it. */
  lemma FormatReadsLastTag(tags: seq<Tag>, key: TagKey)
    ensures (forall t :: t in tags ==> t.key != key) ==> Read(TagMap(tags), key) == Undefined
    ensures forall j :: 0 <= j < |tags| && tags[j].key == key &&
                        (forall l :: j < l < |tags| ==> tags[l].key != key) ==>
                          Read(TagMap(tags), key) == tags[j].value
  {
    TagMapKeys(tags);
    forall j | 0 <= j < |tags| && tags[j].key == key && (forall l :: j < l < |tags| ==> tags[l].key != key) {
      TagMapLastWins(tags, j);
    }
  }

  // ---------------------------------------------------------------------
  // Constructor arguments

  /** The tags of the argument at `index`: `constructorArgsMetadata[index] || []`. */
  function ArgTags(userMeta: map<nat, seq<Tag>>, index: nat): seq<Tag> {
    if index in userMeta then userMeta[index] else []
  }

  predicate IsManaged(md: TargetMetadata) {
    md.unmanaged != Bool(true)
  }

  /** `Object`, `Function` and `undefined` are too ambiguous to resolve. */
  predicate IsUnknownType(v: Value) {
    v == ObjectCtor || v == FunctionCtor || v == Undefined
  }

  /** The identifier of the argument at `index`: a truthy `inject` tag beats
      a truthy `multiInject` tag, which beats the compiler-emitted type
      (`undefined` past the end of the emitted list); whichever is chosen, a
      lazy identifier is replaced by the value its supplier returns. */
  function ArgIdentifier(ids: seq<Value>, index: nat, md: TargetMetadata): (r: Value)
    ensures Truthy(md.inject) && !md.inject.Lazy? ==> r == md.inject
    ensures Truthy(md.inject) && md.inject.Lazy? ==> r == md.inject.supplied
    ensures !Truthy(md.inject) && Truthy(md.multiInject) && !md.multiInject.Lazy? ==> r == md.multiInject
    ensures !Truthy(md.inject) && Truthy(md.multiInject) && md.multiInject.Lazy? ==> r == md.multiInject.supplied
    ensures !Truthy(md.inject) && !Truthy(md.multiInject) && index < |ids| && !ids[index].Lazy? ==> r == ids[index]
    ensures !Truthy(md.inject) && !Truthy(md.multiInject) && index < |ids| && ids[index].Lazy? ==>
              r == ids[index].supplied
    ensures !Truthy(md.inject) && !Truthy(md.multiInject) && |ids| <= index ==> r == Undefined
  {
    var declared := if index < |ids| then ids[index] else Undefined;
    var injected := Or(md.inject, md.multiInject);
    var chosen := if Truthy(injected) then injected else declared;
    if chosen.Lazy? then chosen.supplied else chosen
  }

  /** The target an argument yields when it is managed and accepted. */
  function ArgTarget(ids: seq<Value>, userMeta: map<nat, seq<Tag>>, index: nat): Target {
    var tags := ArgTags(userMeta, index);
    var md := Format(tags);
    Target(ConstructorArgument, md.targetName, ArgIdentifier(ids, index, md), tags)
  }

  predicate ArgManaged(userMeta: map<nat, seq<Tag>>, index: nat) {
    IsManaged(Format(ArgTags(userMeta, index)))
  }

  /** A managed argument whose identifier is ambiguous. */
  predicate ArgAmbiguous(ids: seq<Value>, userMeta: map<nat, seq<Tag>>, index: nat) {
    ArgManaged(userMeta, index) && IsUnknownType(ArgTarget(ids, userMeta, index).identifier)
  }

  /** `getConstructorArgsAsTarget`: no target for an unmanaged argument, an
      error for an ambiguous one outside a base-class pass, else the target. */
  function ConstructorArgAsTarget(index: nat, isBaseClass: bool, className: string,
                                  ids: seq<Value>, userMeta: map<nat, seq<Tag>>): (r: Result<Option<Target>, ResolveError>)
    ensures r.Success? && r.value.None? <==> !ArgManaged(userMeta, index)
    ensures r.Failure? <==> !isBaseClass && ArgAmbiguous(ids, userMeta, index)
    ensures r.Failure? ==> r.error == MissingInjectAnnotation(index, className)
    ensures r.Success? && r.value.Some? ==>
              && r.value.value.kind == ConstructorArgument
              && r.value.value.name == Format(ArgTags(userMeta, index)).targetName
              && r.value.value.identifier == ArgIdentifier(ids, index, Format(ArgTags(userMeta, index)))
              && r.value.value.metadata == ArgTags(userMeta, index)
              && (!isBaseClass ==> !IsUnknownType(r.value.value.identifier))
  {
    if !ArgManaged(userMeta, index) then Success(None)
    else if !isBaseClass && ArgAmbiguous(ids, userMeta, index) then Failure(MissingInjectAnnotation(index, className))
    else Success(Some(ArgTarget(ids, userMeta, index)))
  }

  /** The outcome of `getConstructorArgsAsTargets` over the indices `0..n-1`. */
  function ConstructorArgsAsTargets(isBaseClass: bool, className: string, ids: seq<Value>,
                                    userMeta: map<nat, seq<Tag>>, n: nat): Result<seq<Target>, ResolveError>
  {
    if n == 0 then Success([])
    else
      match ConstructorArgsAsTargets(isBaseClass, className, ids, userMeta, n - 1)
      case Failure(e) => Failure(e)
      case Success(targets) =>
        match ConstructorArgAsTarget(n - 1, isBaseClass, className, ids, userMeta)
        case Failure(e) => Failure(e)
        case Success(None) => Success(targets)
        case Success(Some(t)) => Success(targets + [t])
  }

  /** `getConstructorArgsAsTargets`: one turn per index, pushing each target;
      the first error aborts. */
  method GetConstructorArgsAsTargets(isBaseClass: bool, className: string, ids: seq<Value>,
                                     userMeta: map<nat, seq<Tag>>, iterations: nat)
      returns (r: Result<seq<Target>, ResolveError>)
    ensures r == ConstructorArgsAsTargets(isBaseClass, className, ids, userMeta, iterations)
  {
    var targets: seq<Target> := [];
    for i := 0 to iterations
      invariant ConstructorArgsAsTargets(isBaseClass, className, ids, userMeta, i) == Success(targets)
    {
      var target := ConstructorArgAsTarget(i, isBaseClass, className, ids, userMeta);
      if target.Failure? {
        FailureIsFinal(isBaseClass, className, ids, userMeta, i + 1, iterations);
        return Failure(target.error);
      }
      if target.value.Some? {
        targets := targets + [target.value.value];
      }
    }
    r := Success(targets);
  }

  /** Once an index fails, every longer run fails with the same error. */
  lemma {:induction false} FailureIsFinal(isBaseClass: bool, className: string, ids: seq<Value>,
                                          userMeta: map<nat, seq<Tag>>, i: nat, n: nat)
    requires i <= n
    requires ConstructorArgsAsTargets(isBaseClass, className, ids, userMeta, i).Failure?
    ensures ConstructorArgsAsTargets(isBaseClass, className, ids, userMeta, n)
         == ConstructorArgsAsTargets(isBaseClass, className, ids, userMeta, i)
  {
    if i < n {
      FailureIsFinal(isBaseClass, className, ids, userMeta, i, n - 1);
    }
  }

  /** The managed indices below `n`, in increasing order. */
  function ManagedIndices(userMeta: map<nat, seq<Tag>>, n: nat): seq<nat> {
    if n == 0 then []
    else ManagedIndices(userMeta, n - 1) + (if ArgManaged(userMeta, n - 1) then [n - 1] else [])
  }

  /** Every listed index is below `n` and managed. */
  lemma {:induction false} ManagedIndicesSound(userMeta: map<nat, seq<Tag>>, n: nat)
    ensures forall j :: 0 <= j < |ManagedIndices(userMeta, n)| ==>
              ManagedIndices(userMeta, n)[j] < n && ArgManaged(userMeta, ManagedIndices(userMeta, n)[j])
  {
    if n > 0 {
      ManagedIndicesSound(userMeta, n - 1);
    }
  }

  /** The indices are listed in increasing order, so each once. */
  lemma {:induction false} ManagedIndicesIncreasing(userMeta: map<nat, seq<Tag>>, n: nat)
    ensures forall j, l :: 0 <= j < l < |ManagedIndices(userMeta, n)| ==>
              ManagedIndices(userMeta, n)[j] < ManagedIndices(userMeta, n)[l]
  {
    if n > 0 {
      ManagedIndicesIncreasing(userMeta, n - 1);
      ManagedIndicesSound(userMeta, n - 1);
    }
  }

  /** Every managed index below `n` is listed. */
  lemma {:induction false} ManagedIndicesComplete(userMeta: map<nat, seq<Tag>>, n: nat)
    ensures forall i :: 0 <= i < n && ArgManaged(userMeta, i) ==> i in ManagedIndices(userMeta, n)
  {
    if n > 0 {
      ManagedIndicesComplete(userMeta, n - 1);
    }
  }

  /** The constructor pass succeeds exactly when it is a base-class pass or
      no managed index below `n` is ambiguous. */
  lemma {:induction false} ConstructorArgsSucceed(isBaseClass: bool, className: string, ids: seq<Value>,
                                                  userMeta: map<nat, seq<Tag>>, n: nat)
    ensures ConstructorArgsAsTargets(isBaseClass, className, ids, userMeta, n).Success?
        <==> isBaseClass || forall i :: 0 <= i < n ==> !ArgAmbiguous(ids, userMeta, i)
  {
    if n > 0 {
      ConstructorArgsSucceed(isBaseClass, className, ids, userMeta, n - 1);
    }
  }

  /** `targets` holds, in order, the target of each index of `indices`. */
  predicate TargetsOfIndices(targets: seq<Target>, ids: seq<Value>, userMeta: map<nat, seq<Tag>>, indices: seq<nat>) {
    |targets| == |indices| &&
    forall j :: 0 <= j < |targets| ==> targets[j] == ArgTarget(ids, userMeta, indices[j])
  }

  lemma TargetsOfIndicesSnoc(targets: seq<Target>, ids: seq<Value>, userMeta: map<nat, seq<Tag>>,
                             indices: seq<nat>, i: nat)
    requires TargetsOfIndices(targets, ids, userMeta, indices)
    ensures TargetsOfIndices(targets + [ArgTarget(ids, userMeta, i)], ids, userMeta, indices + [i])
  {
  }

  /** A successful constructor pass yields one target per managed index, in
      increasing index order. */
  lemma {:induction false} ConstructorArgsInOrder(isBaseClass: bool, className: string, ids: seq<Value>,
                                                  userMeta: map<nat, seq<Tag>>, n: nat)
    requires ConstructorArgsAsTargets(isBaseClass, className, ids, userMeta, n).Success?
    ensures TargetsOfIndices(ConstructorArgsAsTargets(isBaseClass, className, ids, userMeta, n).value,
                             ids, userMeta, ManagedIndices(userMeta, n))
  {
    if n > 0 {
      ConstructorArgsStep(isBaseClass, className, ids, userMeta, n);
      ConstructorArgsInOrder(isBaseClass, className, ids, userMeta, n - 1);
      var prev := ConstructorArgsAsTargets(isBaseClass, className, ids, userMeta, n - 1).value;
      var managed := ManagedIndices(userMeta, n - 1);
      if ArgManaged(userMeta, n - 1) {
        assert ManagedIndices(userMeta, n) == managed + [n - 1];
        TargetsOfIndicesSnoc(prev, ids, userMeta, managed, n - 1);
      } else {
        assert ManagedIndices(userMeta, n) == managed;
      }
    }
  }

  /** One index of a successful constructor pass: the run before it
      succeeded, and the index adds its target exactly when it is managed. */
  lemma ConstructorArgsStep(isBaseClass: bool, className: string, ids: seq<Value>,
                            userMeta: map<nat, seq<Tag>>, n: nat)
    requires n > 0
    requires ConstructorArgsAsTargets(isBaseClass, className, ids, userMeta, n).Success?
    ensures ConstructorArgsAsTargets(isBaseClass, className, ids, userMeta, n - 1).Success?
    ensures ConstructorArgsAsTargets(isBaseClass, className, ids, userMeta, n).value
         == ConstructorArgsAsTargets(isBaseClass, className, ids, userMeta, n - 1).value
            + (if ArgManaged(userMeta, n - 1) then [ArgTarget(ids, userMeta, n - 1)] else [])
  {
    var prev := ConstructorArgsAsTargets(isBaseClass, className, ids, userMeta, n - 1);
    if prev.Success? && !ArgManaged(userMeta, n - 1) {
      assert prev.value + [] == prev.value;
    }
  }

  /** A failed constructor pass is not a base-class pass, and it names the
      first ambiguous managed index. */
  lemma {:induction false} ConstructorArgsFirstAmbiguous(isBaseClass: bool, className: string, ids: seq<Value>,
                                                         userMeta: map<nat, seq<Tag>>, n: nat)
    requires ConstructorArgsAsTargets(isBaseClass, className, ids, userMeta, n).Failure?
    ensures var e := ConstructorArgsAsTargets(isBaseClass, className, ids, userMeta, n).error;
            && !isBaseClass
            && e.MissingInjectAnnotation? && e.className == className
            && e.index < n && ArgAmbiguous(ids, userMeta, e.index)
            && forall i :: 0 <= i < e.index ==> !ArgAmbiguous(ids, userMeta, i)
  {
    var prev := ConstructorArgsAsTargets(isBaseClass, className, ids, userMeta, n - 1);
    if prev.Failure? {
      ConstructorArgsFirstAmbiguous(isBaseClass, className, ids, userMeta, n - 1);
    } else {
      ConstructorArgsSucceed(isBaseClass, className, ids, userMeta, n - 1);
    }
  }

  /** The number of constructor arguments resolved: the declared arity, or,
      for a constructor that declares none, the number of user-metadata keys. */
  function Iterations(length: nat, userMeta: map<nat, seq<Tag>>): (n: nat)
    ensures length <= n
    ensures n != length ==> length == 0 && n == |userMeta|
    ensures length == 0 && |userMeta| > 0 ==> n == |userMeta|
  {
    if length == 0 && |userMeta| > 0 then |userMeta| else length
  }

  // ---------------------------------------------------------------------
  // Properties

  /** The target of one injected property: named by its `name` tag or else
      its key, identified by its `inject` or else its `multiInject` tag. */
  function PropertyTarget(p: PropertyMetadata): (r: Target)
    ensures r.kind == ClassProperty && r.metadata == p.tags
    ensures Truthy(Format(p.tags).targetName) ==> r.name == Format(p.tags).targetName
    ensures !Truthy(Format(p.tags).targetName) ==> r.name == Str(p.key)
    ensures p.key != "" ==> Truthy(r.name)
    ensures Truthy(Format(p.tags).inject) ==> r.identifier == Format(p.tags).inject
    ensures !Truthy(Format(p.tags).inject) ==> r.identifier == Format(p.tags).multiInject
    ensures Truthy(r.identifier) <==> Truthy(Format(p.tags).inject) || Truthy(Format(p.tags).multiInject)
  {
    var md := Format(p.tags);
    Target(ClassProperty, Or(md.targetName, Str(p.key)), Or(md.inject, md.multiInject), p.tags)
  }

  /** The targets of a class's own properties, one per key, in key order. */
  function OwnPropertyTargets(props: seq<PropertyMetadata>): (r: seq<Target>)
    ensures |r| == |props|
    ensures forall j :: 0 <= j < |props| ==> r[j] == PropertyTarget(props[j])
  {
    if props == [] then []
    else OwnPropertyTargets(props[..|props| - 1]) + [PropertyTarget(props[|props| - 1])]
  }

  /** The property targets of `cls` followed by those of the classes it
      extends, up to (not including) `Object`. */
  function ClassPropsAsTargets(reader: MetadataReader, cls: ClassDecl): seq<Target>
    decreases cls
  {
    OwnPropertyTargets(reader.getPropertiesMetadata(cls))
      + match cls.base
        case None => []
        case Some(parent) => ClassPropsAsTargets(reader, parent)
  }

  /** `getClassPropsAsTargets`: a target per own property key, then the
      targets of the base class, found by recursion. */
  method GetClassPropsAsTargets(reader: MetadataReader, cls: ClassDecl) returns (targets: seq<Target>)
    ensures targets == ClassPropsAsTargets(reader, cls)
    decreases cls
  {
    var props := reader.getPropertiesMetadata(cls);
    targets := [];
    for i := 0 to |props|
      invariant targets == OwnPropertyTargets(props[..i])
    {
      var md := FormatTargetMetadata(props[i].tags);
      var name := Or(md.targetName, Str(props[i].key));
      var identifier := Or(md.inject, md.multiInject);
      assert props[..i + 1][..i] == props[..i];
      targets := targets + [Target(ClassProperty, name, identifier, props[i].tags)];
    }
    assert props[..|props|] == props;
    if cls.base.Some? {
      var baseTargets := GetClassPropsAsTargets(reader, cls.base.value);
      targets := targets + baseTargets;
    }
  }

  /** Each own property key yields one target, named by its `name` tag or
      else its key and identified by its `inject` or else `multiInject` tag;
      the targets of the class it extends follow, and nothing follows when
      it extends `Object` directly. */
  lemma PropertyTargetsOwnThenBase(reader: MetadataReader, cls: ClassDecl)
    ensures var props := reader.getPropertiesMetadata(cls);
            var targets := ClassPropsAsTargets(reader, cls);
            && |props| <= |targets|
            && (forall j :: 0 <= j < |props| ==>
                  && targets[j].kind == ClassProperty
                  && targets[j].name == Or(Format(props[j].tags).targetName, Str(props[j].key))
                  && targets[j].identifier == Or(Format(props[j].tags).inject, Format(props[j].tags).multiInject)
                  && targets[j].metadata == props[j].tags)
            && targets[|props|..] == (if cls.base.Some? then ClassPropsAsTargets(reader, cls.base.value) else [])
  {
    var props := reader.getPropertiesMetadata(cls);
    var own := OwnPropertyTargets(props);
    var rest := if cls.base.Some? then ClassPropsAsTargets(reader, cls.base.value) else [];
    assert ClassPropsAsTargets(reader, cls) == own + rest;
    assert (own + rest)[|props|..] == rest;
  }

  /** `cls` and the classes it extends, most derived first. */
  function Ancestry(cls: ClassDecl): (r: seq<ClassDecl>)
    ensures |r| > 0 && r[0] == cls
    decreases cls
  {
    [cls] + match cls.base
            case None => []
            case Some(parent) => Ancestry(parent)
  }

  /** The own targets are exactly the targets of the own properties. */
  lemma OwnTargetsCover(props: seq<PropertyMetadata>)
    ensures forall p :: p in props ==> PropertyTarget(p) in OwnPropertyTargets(props)
    ensures forall t :: t in OwnPropertyTargets(props) ==> exists p :: p in props && t == PropertyTarget(p)
  {
    var own := OwnPropertyTargets(props);
    forall p | p in props ensures PropertyTarget(p) in own {
      var j :| 0 <= j < |props| && props[j] == p;
      assert own[j] == PropertyTarget(p);
    }
    forall t | t in own
      ensures exists p :: p in props && t == PropertyTarget(p)
    {
      var j :| 0 <= j < |own| && own[j] == t;
      assert props[j] in props;
    }
  }

  /** Every property of every class in the chain yields its target, and
      every target produced is a property target of some class in the chain. */
  lemma {:induction false} ClassPropsCoverChain(reader: MetadataReader, cls: ClassDecl)
    ensures forall c, p :: c in Ancestry(cls) && p in reader.getPropertiesMetadata(c) ==>
              PropertyTarget(p) in ClassPropsAsTargets(reader, cls)
    ensures forall t :: t in ClassPropsAsTargets(reader, cls) ==>
              t.kind == ClassProperty &&
              exists c, p :: c in Ancestry(cls) && p in reader.getPropertiesMetadata(c) && t == PropertyTarget(p)
    decreases cls
  {
    OwnTargetsCover(reader.getPropertiesMetadata(cls));
    if cls.base.Some? {
      ClassPropsCoverChain(reader, cls.base.value);
    }
  }

  // ---------------------------------------------------------------------
  // getTargets and getDependencies

  /** The outcome of `getTargets`. */
  function Targets(reader: MetadataReader, className: string, func: ClassDecl, isBaseClass: bool)
    : Result<seq<Target>, ResolveError>
  {
    var metadata := reader.getConstructorMetadata(func);
    match metadata.compilerGenerated
    case None => Failure(MissingInjectableAnnotation(className))
    case Some(ids) =>
      var iterations := Iterations(func.length, metadata.userGenerated);
      match ConstructorArgsAsTargets(isBaseClass, className, ids, metadata.userGenerated, iterations)
      case Failure(e) => Failure(e)
      case Success(constructorTargets) => Success(constructorTargets + ClassPropsAsTargets(reader, func))
  }

  /** `getTargets`. */
  method GetTargets(reader: MetadataReader, className: string, func: ClassDecl, isBaseClass: bool)
      returns (r: Result<seq<Target>, ResolveError>)
    ensures r == Targets(reader, className, func, isBaseClass)
  {
    var metadata := reader.getConstructorMetadata(func);
    if metadata.compilerGenerated.None? {
      return Failure(MissingInjectableAnnotation(className));
    }
    var ids := metadata.compilerGenerated.value;
    var userMeta := metadata.userGenerated;
    var iterations := Iterations(func.length, userMeta);
    var constructorTargets := GetConstructorArgsAsTargets(isBaseClass, className, ids, userMeta, iterations);
    if constructorTargets.Failure? {
      return Failure(constructorTargets.error);
    }
    var propertyTargets := GetClassPropsAsTargets(reader, func);
    r := Success(constructorTargets.value + propertyTargets);
  }

  /** The outcome of `getDependencies`. */
  function Dependencies(reader: MetadataReader, func: ClassDecl): Result<seq<Target>, ResolveError> {
    Targets(reader, FunctionName(func), func, false)
  }

  /** `getDependencies`: the targets of a class resolved for itself, not as a
      base class. */
  method GetDependencies(reader: MetadataReader, func: ClassDecl) returns (r: Result<seq<Target>, ResolveError>)
    ensures r == Dependencies(reader, func)
  {
    var constructorName := FunctionName(func);
    r := GetTargets(reader, constructorName, func, false);
  }

  // ---------------------------------------------------------------------
  // Properties of the resolution

  /** A class without compiler-emitted parameter types was never marked
      injectable: its resolution fails with that error, and only then does a
      base-class pass fail. */
  lemma TargetsMissingInjectable(reader: MetadataReader, className: string, func: ClassDecl, isBaseClass: bool)
    ensures reader.getConstructorMetadata(func).compilerGenerated.None? ==>
              Targets(reader, className, func, isBaseClass) == Failure(MissingInjectableAnnotation(className))
    ensures isBaseClass ==>
              (Targets(reader, className, func, isBaseClass).Success? <==>
               reader.getConstructorMetadata(func).compilerGenerated.Some?)
  {
    var metadata := reader.getConstructorMetadata(func);
    if isBaseClass && metadata.compilerGenerated.Some? {
      ConstructorArgsSucceed(isBaseClass, className, metadata.compilerGenerated.value, metadata.userGenerated,
                             Iterations(func.length, metadata.userGenerated));
    }
  }

  /** A successful resolution lists the constructor-argument targets, one per
      managed index in index order, followed by the property targets of the
      class and of the classes it extends. */
  lemma TargetsOnSuccess(reader: MetadataReader, className: string, func: ClassDecl, isBaseClass: bool)
    requires Targets(reader, className, func, isBaseClass).Success?
    ensures var metadata := reader.getConstructorMetadata(func);
            var targets := Targets(reader, className, func, isBaseClass).value;
            var managed := ManagedIndices(metadata.userGenerated, Iterations(func.length, metadata.userGenerated));
            var props := ClassPropsAsTargets(reader, func);
            && metadata.compilerGenerated.Some?
            && |targets| == |managed| + |props|
            && (forall j :: 0 <= j < |managed| ==>
                  targets[j] == ArgTarget(metadata.compilerGenerated.value, metadata.userGenerated, managed[j]))
            && targets[|managed|..] == props
  {
    var metadata := reader.getConstructorMetadata(func);
    ConstructorArgsInOrder(isBaseClass, className, metadata.compilerGenerated.value, metadata.userGenerated,
                           Iterations(func.length, metadata.userGenerated));
  }

  /** Every target is a constructor argument followed by class properties:
      no constructor-argument target comes after a property target. */
  lemma TargetsKindsOrdered(reader: MetadataReader, className: string, func: ClassDecl, isBaseClass: bool)
    requires Targets(reader, className, func, isBaseClass).Success?
    ensures var targets := Targets(reader, className, func, isBaseClass).value;
            forall j, l :: 0 <= j < l < |targets| && targets[j].kind == ClassProperty ==>
              targets[l].kind == ClassProperty
  {
    TargetsOnSuccess(reader, className, func, isBaseClass);
    ClassPropsCoverChain(reader, func);
    var metadata := reader.getConstructorMetadata(func);
    var targets := Targets(reader, className, func, isBaseClass).value;
    var managed := ManagedIndices(metadata.userGenerated, Iterations(func.length, metadata.userGenerated));
    forall j, l | 0 <= j < l < |targets| && targets[j].kind == ClassProperty
      ensures targets[l].kind == ClassProperty
    {
      assert |managed| <= l;
      assert targets[l] == targets[|managed|..][l - |managed|];
      assert targets[l] in ClassPropsAsTargets(reader, func);
    }
  }

  /** `getDependencies` resolves a class for itself: it fails on any
      ambiguous managed argument, and its errors carry the class's name. */
  lemma DependenciesErrors(reader: MetadataReader, func: ClassDecl)
    requires Dependencies(reader, func).Failure?
    ensures Dependencies(reader, func).error.className == FunctionName(func)
    ensures func.name != "" ==> Dependencies(reader, func).error.className == func.name
    ensures Dependencies(reader, func).error.MissingInjectAnnotation? ==>
              var metadata := reader.getConstructorMetadata(func);
              var index := Dependencies(reader, func).error.index;
              && metadata.compilerGenerated.Some?
              && index < Iterations(func.length, metadata.userGenerated)
              && ArgAmbiguous(metadata.compilerGenerated.value, metadata.userGenerated, index)
  {
    var metadata := reader.getConstructorMetadata(func);
    if metadata.compilerGenerated.Some? {
      var ids := metadata.compilerGenerated.value;
      var n := Iterations(func.length, metadata.userGenerated);
      if ConstructorArgsAsTargets(false, FunctionName(func), ids, metadata.userGenerated, n).Failure? {
        ConstructorArgsFirstAmbiguous(false, FunctionName(func), ids, metadata.userGenerated, n);
      }
    }
  }

  // ---------------------------------------------------------------------
  // Worked examples

  /** A constructor `(a: A, b: B)` with no tags yields two targets, named
      `undefined`, identified by `A` and `B`, with empty metadata. */
  lemma TwoTypedArguments(reader: MetadataReader, func: ClassDecl, a: nat, b: nat)
    requires func.length == 2
    requires reader.getConstructorMetadata(func) == ConstructorMetadata(Some([Token(a), Token(b)]), map[])
    requires reader.getPropertiesMetadata(func) == [] && func.base.None?
    ensures Dependencies(reader, func) == Success([
              Target(ConstructorArgument, Undefined, Token(a), []),
              Target(ConstructorArgument, Undefined, Token(b), [])])
  {
    var ids := [Token(a), Token(b)];
    var userMeta: map<nat, seq<Tag>> := map[];
    assert Format([]) == TargetMetadata(Undefined, Undefined, Undefined, Undefined);
    assert ClassPropsAsTargets(reader, func) == [];
    assert Iterations(func.length, userMeta) == 2;
    assert ConstructorArgsAsTargets(false, FunctionName(func), ids, userMeta, 0) == Success([]);
    assert ArgTags(userMeta, 0) == [];
    assert ArgTarget(ids, userMeta, 0) == Target(ConstructorArgument, Undefined, Token(a), []);
    assert ConstructorArgAsTarget(0, false, FunctionName(func), ids, userMeta)
        == Success(Some(Target(ConstructorArgument, Undefined, Token(a), [])));
    var first := Target(ConstructorArgument, Undefined, Token(a), []);
    assert [] + [first] == [first];
    assert ConstructorArgsAsTargets(false, FunctionName(func), ids, userMeta, 1) == Success([first]);
    var second := Target(ConstructorArgument, Undefined, Token(b), []);
    assert ArgTags(userMeta, 1) == [];
    assert ArgTarget(ids, userMeta, 1) == second;
    assert ConstructorArgAsTarget(1, false, FunctionName(func), ids, userMeta) == Success(Some(second));
    assert [first] + [second] == [first, second];
    assert ConstructorArgsAsTargets(false, FunctionName(func), ids, userMeta, 2) == Success([first, second]);
    assert [first, second] + [] == [first, second];
  }

  /** A managed parameter typed as an interface (emitted as `Object`) with no
      `inject` tag fails, naming its index and the class. */
  lemma InterfaceParameterFails(reader: MetadataReader, func: ClassDecl)
    requires func.length == 1 && func.name != ""
    requires reader.getConstructorMetadata(func) == ConstructorMetadata(Some([ObjectCtor]), map[])
    ensures Dependencies(reader, func) == Failure(MissingInjectAnnotation(0, func.name))
  {
    var ids := [ObjectCtor];
    var userMeta: map<nat, seq<Tag>> := map[];
    assert Format([]) == TargetMetadata(Undefined, Undefined, Undefined, Undefined);
    assert ArgTags(userMeta, 0) == [];
    assert ArgTarget(ids, userMeta, 0).identifier == ObjectCtor;
    assert ConstructorArgAsTarget(0, false, func.name, ids, userMeta) == Failure(MissingInjectAnnotation(0, func.name));
    assert ConstructorArgsAsTargets(false, func.name, ids, userMeta, 1) == Failure(MissingInjectAnnotation(0, func.name));
  }

  /** The same parameter resolved as a base class is accepted as it is. */
  lemma InterfaceParameterInBaseClass(reader: MetadataReader, func: ClassDecl)
    requires func.length == 1
    requires reader.getConstructorMetadata(func) == ConstructorMetadata(Some([ObjectCtor]), map[])
    requires reader.getPropertiesMetadata(func) == [] && func.base.None?
    ensures Targets(reader, func.name, func, true) == Success([Target(ConstructorArgument, Undefined, ObjectCtor, [])])
  {
    var ids := [ObjectCtor];
    var userMeta: map<nat, seq<Tag>> := map[];
    var only := Target(ConstructorArgument, Undefined, ObjectCtor, []);
    assert Format([]) == TargetMetadata(Undefined, Undefined, Undefined, Undefined);
    assert ClassPropsAsTargets(reader, func) == [];
    assert ArgTags(userMeta, 0) == [];
    assert ArgTarget(ids, userMeta, 0) == only;
    assert ConstructorArgAsTarget(0, true, func.name, ids, userMeta) == Success(Some(only));
    assert [] + [only] == [only] && [only] + [] == [only];
    assert ConstructorArgsAsTargets(true, func.name, ids, userMeta, 1) == Success([only]);
  }

  /** A lazy identifier given as the `inject` tag resolves to the identifier
      its supplier returns. */
  lemma LazyInjectUnwrapped(reader: MetadataReader, func: ClassDecl, x: nat)
    requires func.length == 1
    requires reader.getConstructorMetadata(func)
          == ConstructorMetadata(Some([ObjectCtor]), map[0 := [Tag(InjectTag, Lazy(Token(x)))]])
    requires reader.getPropertiesMetadata(func) == [] && func.base.None?
    ensures Dependencies(reader, func)
         == Success([Target(ConstructorArgument, Undefined, Token(x), [Tag(InjectTag, Lazy(Token(x)))])])
  {
    var ids := [ObjectCtor];
    var tags := [Tag(InjectTag, Lazy(Token(x)))];
    var userMeta: map<nat, seq<Tag>> := map[0 := tags];
    var only := Target(ConstructorArgument, Undefined, Token(x), tags);
    assert tags[..0] == [];
    assert TagMap(tags) == map[InjectTag := Lazy(Token(x))];
    assert Format(tags) == TargetMetadata(Lazy(Token(x)), Undefined, Undefined, Undefined);
    assert ClassPropsAsTargets(reader, func) == [];
    assert ArgTags(userMeta, 0) == tags;
    assert ArgTarget(ids, userMeta, 0) == only;
    assert ConstructorArgAsTarget(0, false, FunctionName(func), ids, userMeta) == Success(Some(only));
    assert [] + [only] == [only] && [only] + [] == [only];
    assert ConstructorArgsAsTargets(false, FunctionName(func), ids, userMeta, 1) == Success([only]);
  }

  /** A class with one injected property extending a class with another:
      the subclass's property target comes first. */
  lemma SubclassPropertyFirst(reader: MetadataReader, sub: ClassDecl, parent: ClassDecl, p1: nat, p2: nat)
    requires sub.base == Some(parent) && parent.base.None?
    requires sub.length == 0 && reader.getConstructorMetadata(sub) == ConstructorMetadata(Some([]), map[])
    requires reader.getPropertiesMetadata(sub) == [PropertyMetadata("p1", [Tag(InjectTag, Token(p1))])]
    requires reader.getPropertiesMetadata(parent) == [PropertyMetadata("p2", [Tag(InjectTag, Token(p2))])]
    ensures Dependencies(reader, sub) == Success([
              Target(ClassProperty, Str("p1"), Token(p1), [Tag(InjectTag, Token(p1))]),
              Target(ClassProperty, Str("p2"), Token(p2), [Tag(InjectTag, Token(p2))])])
  {
    var t1 := [Tag(InjectTag, Token(p1))];
    var t2 := [Tag(InjectTag, Token(p2))];
    var first := Target(ClassProperty, Str("p1"), Token(p1), t1);
    var second := Target(ClassProperty, Str("p2"), Token(p2), t2);
    var userMeta: map<nat, seq<Tag>> := map[];
    assert t1[..0] == [] && t2[..0] == [];
    assert TagMap(t1) == map[InjectTag := Token(p1)];
    assert TagMap(t2) == map[InjectTag := Token(p2)];
    assert PropertyTarget(PropertyMetadata("p1", t1)) == first;
    assert PropertyTarget(PropertyMetadata("p2", t2)) == second;
    assert OwnPropertyTargets(reader.getPropertiesMetadata(parent)) == [second];
    assert ClassPropsAsTargets(reader, parent) == [second];
    assert OwnPropertyTargets(reader.getPropertiesMetadata(sub)) == [first];
    assert ClassPropsAsTargets(reader, sub) == [first, second];
    assert Iterations(sub.length, userMeta) == 0;
    assert [] + [first, second] == [first, second];
  }

  /** For a constructor that declares no parameters, the number of
      user-metadata keys decides how many positions are read, and the
      positions read are `0, 1, ...`, whatever the keys are: tags kept under
      index 2 are never looked at, and position 0 is resolved untagged. */
  lemma SparseMetadataReadByPosition(reader: MetadataReader, func: ClassDecl, x: nat)
    requires func.length == 0 && func.name != ""
    requires reader.getConstructorMetadata(func)
          == ConstructorMetadata(Some([]), map[2 := [Tag(InjectTag, Token(x))]])
    ensures Iterations(func.length, reader.getConstructorMetadata(func).userGenerated) == 1
    ensures Dependencies(reader, func) == Failure(MissingInjectAnnotation(0, func.name))
  {
    var ids: seq<Value> := [];
    var userMeta: map<nat, seq<Tag>> := map[2 := [Tag(InjectTag, Token(x))]];
    assert userMeta.Keys == {2};
    assert |userMeta| == |userMeta.Keys| == 1;
    assert Format([]) == TargetMetadata(Undefined, Undefined, Undefined, Undefined);
    assert ArgTags(userMeta, 0) == [];
    assert ArgTarget(ids, userMeta, 0).identifier == Undefined;
    assert ConstructorArgAsTarget(0, false, func.name, ids, userMeta) == Failure(MissingInjectAnnotation(0, func.name));
    assert ConstructorArgsAsTargets(false, func.name, ids, userMeta, 1) == Failure(MissingInjectAnnotation(0, func.name));
  }
}
