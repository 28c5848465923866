/** A column descriptor: a name bound to one field of a mapped class, either through
    a member pointer or through a getter and setter pair, with an ordered list of
    constraints, and the queries that read that list. */
module Columns {
  import opened Wrappers
  import Mpl

  /** The identity of a C++ type, as `typeid` would give it. */
  type TypeName = string

  /** A mapped field type. Whether it is nullable (an optional or a smart pointer)
      is decided by a trait that is not part of this model and is an input here. */
  datatype FieldType = FieldType(name: TypeName, nullable: bool)

  /** `F O::*`: a pointer to a data member of class `objectType`. */
  datatype MemberPointer = MemberPointer(objectType: TypeName, member: string, fieldType: FieldType)

  /** `std::integral_constant<F O::*, m>`: a member pointer carried as a type. */
  datatype MemberConstant = MemberConstant(pointer: MemberPointer)

  /** `const F& (O::*)() const`: a getter member function. */
  datatype Getter = Getter(objectType: TypeName, member: string, fieldType: FieldType)

  /** `void (O::*)(F)`: a setter member function. */
  datatype Setter = Setter(objectType: TypeName, member: string, fieldType: FieldType)

  /** A column constraint. `Default` is `default_t<T>`: its value type and the text
      the default value extractor produces for it. `GeneratedAlways` is
      `generated_always_t<T>`: its expression type and the expression. `Other`
      stands for every further constraint type. */
  datatype Constraint =
    | Default(valueType: TypeName, text: string)
    | GeneratedAlways(expressionType: TypeName, expression: string)
    | PrimaryKey
    | Other(tag: TypeName)

  /** The C++ type of a constraint, which is what `has<Opt>` compares: the
      template and its type argument, without the stored value. */
  datatype ConstraintType =
    | DefaultType(valueType: TypeName)
    | GeneratedAlwaysType(expressionType: TypeName)
    | PrimaryKeyType
    | OtherType(tag: TypeName)

  function TypeOf(c: Constraint): ConstraintType {
    match c
    case Default(valueType, _) => DefaultType(valueType)
    case GeneratedAlways(expressionType, _) => GeneratedAlwaysType(expressionType)
    case PrimaryKey => PrimaryKeyType
    case Other(tag) => OtherType(tag)
  }

  /** default_value_extractor: the textual default a constraint yields, if any. */
  function DefaultOf(c: Constraint): Option<string> {
    if c.Default? then Some(c.text) else None
  }

  /** is_generated_always<constraint_type>. */
  predicate IsGeneratedAlways(c: Constraint) {
    c.GeneratedAlways?
  }

  /** column_t. A datatype value is immutable, so the name stays as constructed.
      The constructor of column_t is the constructor `Column` of this datatype. */
  datatype Column = Column(
    name: string,
    fieldType: FieldType,
    memberPointer: Option<MemberPointer>,
    getter: Option<Getter>,
    setter: Option<Setter>,
    constraints: seq<Constraint>)

  /** The access-path invariant: when the member pointer is null, the getter and
      the setter are not; and every access path present reads or writes the
      column's field type, as `member_pointer_t = field_type object_type::*` ties
      them together. */
  predicate AccessValid(c: Column)
    ensures AccessValid(c) ==> c.memberPointer.Some? || c.getter.Some?
  {
    && (c.memberPointer.None? ==> c.getter.Some? && c.setter.Some?)
    && (c.memberPointer.Some? ==> c.memberPointer.value.fieldType == c.fieldType)
    && (c.getter.Some? ==> c.getter.value.fieldType == c.fieldType)
    && (c.setter.Some? ==> c.setter.value.fieldType == c.fieldType)
  }

  // ---------------------------------------------------------------------------
  // Queries
  // ---------------------------------------------------------------------------

  /** not_null(): the column is NOT NULL when its field type is not nullable. */
  function NotNull(c: Column): (r: bool)
    ensures r <==> !c.fieldType.nullable
    ensures AccessValid(c) && c.memberPointer.Some? ==> (r <==> !c.memberPointer.value.fieldType.nullable)
    ensures AccessValid(c) && c.getter.Some? ==> (r <==> !c.getter.value.fieldType.nullable)
  {
    !c.fieldType.nullable
  }

  /** has<Opt>(): whether a constraint of type `opt` is in the constraints list. */
  function Has(c: Column, opt: ConstraintType): (r: bool)
    ensures r <==> exists i :: 0 <= i < |c.constraints| && TypeOf(c.constraints[i]) == opt
  {
    Mpl.Contains(c.constraints, Mpl.IsType(opt), TypeOf)
  }

  /** The specification of default_value(): the default of the last constraint
      yielding one, or none when no constraint does. */
  function LastDefault(cs: seq<Constraint>): (r: Option<string>)
    ensures r.None? <==> forall i :: 0 <= i < |cs| ==> DefaultOf(cs[i]).None?
    ensures r.Some? ==> exists i :: 0 <= i < |cs| && DefaultOf(cs[i]) == r &&
                          forall j :: i < j < |cs| ==> DefaultOf(cs[j]).None?
  {
    if |cs| == 0 then None
    else if DefaultOf(cs[|cs| - 1]).Some? then DefaultOf(cs[|cs| - 1])
    else
      var r := LastDefault(cs[..|cs| - 1]);
      assert forall i :: 0 <= i < |cs| - 1 ==> cs[..|cs| - 1][i] == cs[i];
      r
  }

  /** default_value(): walk the constraints in order; each one that yields a
      default overwrites the result. */
  method DefaultValue(c: Column) returns (res: Option<string>)
    ensures res == LastDefault(c.constraints)
  {
    var cs := c.constraints;
    res := None;
    for k := 0 to |cs|
      invariant res == LastDefault(cs[..k])
    {
      var dft := DefaultOf(cs[k]);
      if dft.Some? {
        res := dft;
      }
      assert cs[..k + 1][..k] == cs[..k];
    }
    assert cs[..|cs|] == cs;
  }

  /** The first SQLite version (3.31.0) with generated columns, as SQLITE_VERSION_NUMBER. */
  const GeneratedColumnsVersion: nat := 3031000

  /** is_generated(): on SQLite 3.31.0 and later, walk the constraints and set the
      result from each one until it has become true; before 3.31.0, false. */
  method IsGenerated(c: Column, sqliteVersion: nat) returns (res: bool)
    ensures res <==> sqliteVersion >= GeneratedColumnsVersion &&
                     exists i :: 0 <= i < |c.constraints| && IsGeneratedAlways(c.constraints[i])
  {
    if sqliteVersion >= GeneratedColumnsVersion {
      var cs := c.constraints;
      res := false;
      for k := 0 to |cs|
        invariant res <==> exists i :: 0 <= i < k && IsGeneratedAlways(cs[i])
      {
        if !res {
          res := IsGeneratedAlways(cs[k]);
        }
      }
    } else {
      res := false;
    }
  }

  /** `has<Opt>` tells constraints of one template apart by their type argument:
      a `default_t<std::string>` is not a `default_t<int>`. */
  lemma HasDistinguishesTypeArguments(name: string, m: MemberPointer)
    ensures var c := MakeColumn(name, m, [Default("std::string", "'x'")]);
            Has(c, DefaultType("std::string")) && !Has(c, DefaultType("int"))
  {
  }

  /** Appending a constraint that yields a default makes it the default: the last one wins. */
  lemma LastDefaultWins(cs: seq<Constraint>, d: Constraint)
    requires DefaultOf(d).Some?
    ensures LastDefault(cs + [d]) == DefaultOf(d)
  {
  }

  /** Appending a constraint that yields no default leaves the default unchanged. */
  lemma LastDefaultSkips(cs: seq<Constraint>, d: Constraint)
    requires DefaultOf(d).None?
    ensures LastDefault(cs + [d]) == LastDefault(cs)
  {
  }

  // ---------------------------------------------------------------------------
  // Builders
  // ---------------------------------------------------------------------------

  /** make_column(name, &O::field, constraints...). */
  function MakeColumn(name: string, m: MemberPointer, constraints: seq<Constraint>): (c: Column)
    ensures c.name == name && c.constraints == constraints && c.fieldType == m.fieldType
    ensures c.memberPointer == Some(m) && c.getter.None? && c.setter.None?
    ensures AccessValid(c)
  {
    Column(name, m.fieldType, Some(m), None, None, constraints)
  }

  /** make_column(name, integral_constant<F O::*, m>{}, constraints...). */
  function MakeColumnFromConstant(name: string, m: MemberConstant, constraints: seq<Constraint>): (c: Column)
    ensures c.name == name && c.constraints == constraints && c.fieldType == m.pointer.fieldType
    ensures c.memberPointer == Some(m.pointer) && c.getter.None? && c.setter.None?
    ensures AccessValid(c)
  {
    Column(name, m.pointer.fieldType, Some(m.pointer), None, None, constraints)
  }

  /** make_column(name, setter, getter, constraints...). Getter and setter must
      get and set the same field type. */
  function MakeColumnSetterGetter(name: string, setter: Setter, getter: Getter, constraints: seq<Constraint>): (c: Column)
    requires setter.fieldType == getter.fieldType
    ensures c.name == name && c.constraints == constraints && c.fieldType == setter.fieldType
    ensures c.memberPointer.None? && c.getter == Some(getter) && c.setter == Some(setter)
    ensures AccessValid(c)
  {
    Column(name, setter.fieldType, None, Some(getter), Some(setter), constraints)
  }

  /** make_column(name, getter, setter, constraints...): the reverse argument order. */
  function MakeColumnGetterSetter(name: string, getter: Getter, setter: Setter, constraints: seq<Constraint>): (c: Column)
    requires setter.fieldType == getter.fieldType
    ensures c.name == name && c.constraints == constraints && c.fieldType == setter.fieldType
    ensures c.memberPointer.None? && c.getter == Some(getter) && c.setter == Some(setter)
    ensures AccessValid(c)
  {
    Column(name, setter.fieldType, None, Some(getter), Some(setter), constraints)
  }

  /** Both getter/setter builders give the same column whatever the argument order,
      and the member-constant builder gives the column of its member pointer. */
  lemma BuildersAgree(name: string, m: MemberPointer, getter: Getter, setter: Setter, cs: seq<Constraint>)
    requires setter.fieldType == getter.fieldType
    ensures MakeColumnSetterGetter(name, setter, getter, cs) == MakeColumnGetterSetter(name, getter, setter, cs)
    ensures MakeColumnFromConstant(name, MemberConstant(m), cs) == MakeColumn(name, m, cs)
  {
  }

  /** A built column is NOT NULL exactly when the field type of the member or of
      the accessors it was given is not nullable. */
  lemma BuiltColumnNotNull(name: string, m: MemberPointer, getter: Getter, setter: Setter, cs: seq<Constraint>)
    requires setter.fieldType == getter.fieldType
    ensures NotNull(MakeColumn(name, m, cs)) <==> !m.fieldType.nullable
    ensures NotNull(MakeColumnFromConstant(name, MemberConstant(m), cs)) <==> !m.fieldType.nullable
    ensures NotNull(MakeColumnSetterGetter(name, setter, getter, cs)) <==> !setter.fieldType.nullable
    ensures NotNull(MakeColumnGetterSetter(name, getter, setter, cs)) <==> !getter.fieldType.nullable
  {
  }
}
