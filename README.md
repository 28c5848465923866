# sqlite_orm: metaprogramming helpers, column descriptors and the table registry

This project models three small pieces of value-level logic of sqlite_orm, a C++
object-relational mapper for SQLite, and proves properties of them in Dafny.

- **Type-list search and count** (`dev/functional/mpl.h`). `find_first_true_helper`
  and `count_true_helper` take a list of booleans. Each exists as a loop
  (relaxed constexpr) and as a recursion. The metafunctions `finds`, `counts`,
  `contains`, `check_if_has`, `check_if_has_not`, `finds_if_has_type` and
  `check_if_has_type` evaluate a quoted predicate on every element of a type list,
  optionally after a projection. In the model a type list is a `seq<T>`, a quoted
  predicate is a total function `U -> bool`, and a projection is a function
  `T -> U`. The default projection is `Mpl.Identity`. The recursions are
  functions. The loops are methods proved equal to the functions.
- **Column descriptors** (`dev/column.h`). A `column_t` is the datatype
  `Columns.Column`: a name, the field type, the access path (a member pointer, or
  a getter and a setter) and the ordered constraints. The datatype constructor is
  the `column_t` constructor. A datatype value is immutable, which models the
  `const` name. `default_value()` and `is_generated()` walk the constraints and
  overwrite a local result, so they are methods with loops, specified against
  functions of the constraint list. The four `make_column` overloads are
  functions.
- **Table registry** (`dev/storage_impl.h`). The inheritance chain
  `storage_impl<H, Ts...>` is the datatype `Storage.StorageImpl = Tail |
  Link(table, super)`. `Storage.Tables` maps a chain to the sequence of its tables
  in declaration order, and `Storage.MakeStorage`, the chain constructor, maps back.
  `for_each` is the sequence of layers its callback is called with: each layer
  is `*this`, a table together with the chain below it. The lookups are
  first-match searches, stated with `Mpl.Finds`. `find_column_name` by index
  constant filters a table's elements down to columns and selects the I-th one.

Inputs that the modelled code receives from code outside this model:
- The nullability of a field type (`type_is_nullable`) is the input `FieldType.nullable`.
- The text that `default_value_extractor` produces for a default constraint is the
  payload of `Constraint.Default`.
- `SQLITE_VERSION_NUMBER` is the parameter `sqliteVersion` of `Columns.IsGenerated`.
- `find_impl` and `pick_impl` (in `storage_lookup.h`) decide which tables match a
  lookup type. Here that decision is the parameter `matches`, and the first
  matching table from the head is taken.

## Model

| member | source | states |
|---|---|---|
| `Mpl.FindFirstTrue` | dev/functional/mpl.h:285-290 | The result is at most the length. Every element before it is false. If it is below the length, the element there is true. |
| `Mpl.CountTrue` | dev/functional/mpl.h:292-297 | The result is the number of `true` elements (the multiplicity of `true`), so it is at most the length. |
| `Mpl.FindFirstTrueIterative` | dev/functional/mpl.h:269-275 | The loop form gives the same index as the recursive form. |
| `Mpl.CountTrueIterative` | dev/functional/mpl.h:277-283 | The loop form gives the same count as the recursive form. |
| `Mpl.FindFirstTrueAtEnd` | dev/functional/mpl.h:285-286 | The search returns the length exactly when the list holds no `true`. |
| `Mpl.CountTrueCardinality` | dev/functional/mpl.h:292-297 | The count equals the number of positions that hold `true`. |
| `Mpl.CountTrueExtremes` | dev/functional/mpl.h:292-293 | The count is 0 exactly when no element is true. It equals the length exactly when no element is false. |
| `Mpl.Evaluate` | dev/functional/mpl.h:313-315 | The pack expansion gives one boolean per element, in order: the predicate applied to the projected element. |
| `Mpl.IsType` | dev/functional/mpl.h:384-386 | `check_if_is_type<Type>` holds of a type exactly when it is `Type`. |
| `Mpl.Finds` | dev/functional/mpl.h:304-320 | `finds` returns the index of the first element whose projection satisfies the predicate, or the length when none does. |
| `Mpl.Counts` | dev/functional/mpl.h:329-345 | `counts` is the number of positions whose projected element satisfies the predicate. So it is at most the length, it is 0 exactly when no projected element satisfies the predicate, and it is the length exactly when all of them do. |
| `Mpl.Contains` | dev/functional/mpl.h:354-359 | `contains` is true exactly when some projected element satisfies the predicate. |
| `Mpl.CheckIfHas` | dev/functional/mpl.h:417-418 | `check_if_has` is true exactly when some projected element has the trait. The projection defaults to the identity, as `contains` takes it. |
| `Mpl.CheckIfHasNot` | dev/functional/mpl.h:423-424 | `check_if_has_not` is true exactly when no projected element has the trait. This is the negation of `check_if_has` under the same projection. |
| `Mpl.FindsIfHasType` | dev/functional/mpl.h:399-400 | The result is the position of the first element whose projection is the type (the projection defaults to the identity). It is below the length exactly when some projected element is the type. |
| `Mpl.CheckIfHasType` | dev/functional/mpl.h:429-430 | True exactly when some projected element is the type (the projection defaults to the identity). |
| `Mpl.FindsIffContains` | dev/functional/mpl.h:354-359 | `finds` stops below the length exactly when `contains` holds, so `contains` is the same as `counts > 0`. |
| `Mpl.FindsCons` | dev/functional/mpl.h:285-286 | On a list with head `x`: `finds` is 0 when `x` matches, and otherwise 1 plus the result on the tail. |
| `Mpl.CountsAppend` | dev/functional/mpl.h:338-340 | `counts` over a concatenation is the sum of the counts of the two parts. |
| `Mpl.ProjectionFirst` | dev/functional/mpl.h:313-319 | Applying the projection inside `finds` and `counts` gives the same result as projecting the list first and then using the identity. |
| `Columns.AccessValid` | dev/column.h:53-70 | The access-path invariant: with a null member pointer both accessors are set, and every access path present has the column's field type. A valid column can always be read. |
| `Columns.NotNull` | dev/column.h:89-91 | NOT NULL exactly when the field type is not nullable. On a valid column that is the nullability of the member's or the getter's field type. |
| `Columns.Has` | dev/column.h:93-96 | `has<Opt>()` is true exactly when some constraint's type, template and type argument, is `Opt`. |
| `Columns.HasDistinguishesTypeArguments` | dev/column.h:93-96 | A column with a `default_t<std::string>` has that type but not `default_t<int>`. |
| `Columns.LastDefault` | dev/column.h:98-111 | There is no default exactly when no constraint yields one. Otherwise the default is the one from a constraint with no default-yielding constraint after it, that is, the last. |
| `Columns.DefaultValue` | dev/column.h:102-111 | The loop over the constraints returns exactly the specified last-wins default. |
| `Columns.IsGenerated` | dev/column.h:113-126 | True exactly when the SQLite version is at least 3.31.0 and some constraint is generated-always. Before 3.31.0 it is always false. |
| `Columns.LastDefaultWins` | dev/column.h:104-108 | Appending a constraint that yields a default makes that default the result. |
| `Columns.LastDefaultSkips` | dev/column.h:104-108 | Appending a constraint without a default leaves the result unchanged. |
| `Columns.MakeColumn` | dev/column.h:234-245 | Stores the name and the constraints unchanged and in order, stores the member pointer, and leaves getter and setter null. The access-path invariant holds. |
| `Columns.MakeColumnFromConstant` | dev/column.h:250-262 | Same as `MakeColumn` for a member pointer carried as an `integral_constant`. |
| `Columns.MakeColumnSetterGetter` | dev/column.h:267-284 | Requires getter and setter of the same field type. Stores a null member pointer and the given getter and setter, so the access-path invariant holds. |
| `Columns.MakeColumnGetterSetter` | dev/column.h:290-307 | Same as `MakeColumnSetterGetter`, with the arguments in the reverse order. |
| `Columns.BuildersAgree` | dev/column.h:277-306 | Both getter/setter overloads build the same column. The member-constant overload builds the same column as the member-pointer overload. |
| `Columns.BuiltColumnNotNull` | dev/column.h:89-91 | A column from any builder is NOT NULL exactly when the field type of the member or accessor given to the builder is not nullable. |
| `Storage.MakeStorage` | dev/storage_impl.h:37-44 | The chain built from a list of tables holds exactly that list, in declaration order. |
| `Storage.MakeStorageOfTables` | dev/storage_impl.h:42 | Rebuilding a chain from its own tables gives back the same chain. |
| `Storage.ForEach` | dev/storage_impl.h:46-58 | Calls the callback once per table, on the layer holding it: the i-th call receives the layer of the i-th table from the end, and that layer's chain is the suffix of the tables starting there. The order is the reverse of declaration order. The empty chain is not visited at all. |
| `Storage.Key` | dev/storage_impl.h:88-91 | The type index a table is found by is its label type, or its object type when the label is `void`. |
| `Storage.FindTableName` | dev/storage_impl.h:82-95 | Returns the name of the first table, from the head, whose key (label type if any, otherwise object type) is the queried type index. Returns the empty string when no table's key matches. |
| `Storage.FindImpl` | dev/storage_impl.h:74 | The layer found is the chain's suffix that starts at the first matching table. It is the empty tail when no table matches. |
| `Storage.LookupTable` | dev/storage_impl.h:72-80 | Null exactly when no table matches. Otherwise the first matching table. |
| `Storage.LookupTableName` | dev/storage_impl.h:97-104 | The empty string when no table matches. Otherwise the name of the first matching table. |
| `Storage.ColumnIndices` | dev/storage_impl.h:197 | The filtered index sequence has at most one position per element. |
| `Storage.ColumnIndicesExact` | dev/storage_impl.h:197 | The filtered index sequence holds exactly the positions of the column elements, in strictly increasing order. |
| `Storage.ColumnIndicesSelectColumns` | dev/storage_impl.h:196-200 | The k-th filtered position holds the k-th column of the table, with non-column elements skipped. |
| `Storage.ColumnNameAt` | dev/storage_impl.h:193-205 | (corrected guard) A name is returned exactly when the table has an I-th column, and it is that column's name. |
| `Storage.ColumnPosition` | dev/storage_impl.h:200 | ColIdx is the element position of the I-th column. Past the last column it is either missing or the last column's position, as the parameter says. Any position it gives holds a column. |
| `Storage.ColumnNameAtAsWritten` | dev/storage_impl.h:200-203 | (guard as written) A name is returned exactly when ColIdx exists and is less than the number of columns. The name is that of the element at ColIdx, which is the I-th column when I is in range. |
| `Storage.FindColumnName` | dev/storage_impl.h:193-205 | (corrected guard) The intended result; the source as written rejects some of these indices, see Findings. None when no table is found. Otherwise a name is returned exactly when the table found has an I-th column, and it is that column's name. |
| `Storage.AsWrittenRejectsSecondColumn` | dev/storage_impl.h:200-201 | For a table with elements [column, table constraint, column], the guard as written rejects index 1, but the table's second column exists. This holds whatever ColIdx is past the end. |
| `Storage.ColumnsLeadIndices` | dev/storage_impl.h:197 | When no column follows a non-column element, the I-th column sits at element position I. |
| `Storage.AsWrittenAgreesWhenColumnsLead` | dev/storage_impl.h:200-201 | When all columns come before every other element, the guard as written and the corrected guard agree on every I that names a column. They agree on every I when a position past the end does not compile. |
| `Storage.AsWrittenAcceptsPastEnd` | dev/storage_impl.h:200-203 | If ColIdx past the end is the last position, then on the columns-only table [id, name] the guard as written accepts I = 2 and gives the name `name`. The corrected guard rejects it. |

## Findings

| source | as written | input that shows it | evidently intended | confidence | as-written member | corrected member |
|---|---|---|---|---|---|---|
| dev/storage_impl.h:200-201 | `static_assert(ColIdx < column_idxs{}.size())` compares an element position (ColIdx) with the number of columns | table elements `[column id, primary_key(...), column name]`, index constant 1: ColIdx is 2 and there are 2 columns, so the assertion fails although column 1 exists | check that the I-th column exists (`I < column_idxs{}.size()`) | not executed; medium (when every element is a column, as in a CTE, the two checks agree on every I that names a column) | `Storage.ColumnNameAtAsWritten`, `Storage.AsWrittenRejectsSecondColumn` | `Storage.ColumnNameAt` (used by `Storage.FindColumnName`) |
| dev/storage_impl.h:200-201 | with ColIdx taken from `index_sequence_value`, the assertion never compares I itself with the number of columns | a table of columns only `[id, name]` and index constant 2, if `index_sequence_value` yields the last value for a position past the end: ColIdx is 1 < 2, so the assertion passes and the last column's name, `name`, is returned | reject an I that is not below the number of columns | not executed; low (`index_sequence_value` is not part of this model, so its out-of-range result is a parameter) | `Storage.ColumnNameAtAsWritten`, `Storage.AsWrittenAcceptsPastEnd` | `Storage.ColumnNameAt` (used by `Storage.FindColumnName`) |

## Left out

- Type-level machinery of `dev/functional/mpl.h` (`quote_fn`, `defer`, `higherorder`, `pass_extracted_fn_to`, `pass_result_of`, `bind_front`/`bind_back`, `always`, `not_`, `conjunction`, `disjunction`, `is_quoted_metafuntion`): it is resolved at compile time. Only its effect is modelled, as predicates and projections over sequences.
- `dev/type_traits.h`: it holds only `enable_if` aliases and typedef sugar, with no behaviour.
- `tests/functional/tuple/assign.convert_copy.cpp`: it tests tuple conversion with double-to-int truncation and reference rebinding, and those tuple types are not in the modelled files.
- `table_exists`, `rename_table` (storage_impl.h:22-24): they run SQL against a `sqlite3*` connection, and their bodies are not in the modelled files.
- `calculate_remove_add_columns` (storage_impl.h:26-28): only its declaration is present. The schema synchronisation it serves (column diff, reconciliation decision, migration) is not part of this model.
- `get_table_name` and `find_column_name` by member pointer (storage_impl.h:106-117, 155-159): they call `pick_impl` and `table_t::find_column_name`, which are not part of this model.
- `materialize_column_pointer` and `find_column_name` by CTE alias (storage_impl.h:124-187): they resolve types through a CTE mapper that is not part of this model.
- The insertable and non-insertable primary-key traits, `column_field_type`, `column_field_expression`, `column_constraints_type` (column.h:129-227): they are type traits. Insertability depends on `is_primary_key_insertable`, which is not part of this model.
- `type_is_nullable` and `default_value_extractor`: treated as opaque inputs, as described above. `Columns.NotNull` is therefore only the negation of that input.
- `static_assert`s on the constraints pack (`constraints_size`) and on member-function pointers: the model's types admit only constraints and data-member pointers, so these assertions are always satisfied.
- `index_sequence_value` is not part of this model. What it yields for a position past the end of the sequence is the parameter `pastEnd` of `Storage.ColumnPosition`: either no value, so the program does not compile, or the last value.
- `Storage.ForEach` records the layers the callback is called with. What the callback does with them is not modelled, including any access to the rest of the chain through the layer.
- Storage.LookupTable: it returns the table by value, so the model does not capture that the source returns a pointer into the storage object (pointer identity).
- Storage.FindImpl: the type-matching rule of `find_impl`/`pick_impl` is a parameter, so the model does not fix which of object type or label a lookup type is compared with.
- Columns.IsGenerated: the SQLite version is a run-time parameter here. In the source it is the compile-time `SQLITE_VERSION_NUMBER`.
