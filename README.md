# DataContext record store, modelled in Dafny

`DataContext` is a process-wide, in-memory store meant to cache record
collections (typically rows fetched from a database) under string keys,
with two query helpers over a list of records:

- `set(key, value)`, `get(key, default)` and `deinit()` keep a
  `str -> value` dictionary, overwrite an entry, read one with a default,
  and empty the dictionary;
- `find(records, keys, values, default)` returns the first record that
  satisfies a condition, or `default`;
- `filter(records, keys, values)` returns every record that satisfies it,
  in order.

A condition pairs field names with expected values, position by
position. One field name is paired with one value. A collection of field
names needs a collection of values of the same length, otherwise the
query raises `ValueError`. A record's field matches an expected value by
membership when that value is an iterable other than a string, bytes or a
dict, and by equality otherwise. A field the record lacks reads as `None`.

The project has four modules:

- `Values` (values.dfy): the `Value` datatype for Python values (`None`,
  booleans, integers, strings, bytes, dicts with string keys, and `Coll`
  for lists and tuples), records as `map<string, Value>`, field
  access with `None` for a missing field, and the matching rule `Match`.
- `Query` (query.dfy): the normalisation of the field spec and value spec
  into positional clauses, the predicate `Satisfies` (the `all(...)`
  over the clauses), the list comprehension `Select`, the generator with
  `next(..., default)` as `First`, and the operations `Find` and `Filter`,
  with the lemmas that pin them down.
- `Store` (store.dfy): the class `DataContext<V>` with the dictionary as
  a `map<string, V>` field and the methods `Set`, `Get` and `Deinit`.
- `Usage` (usage.dfy): the usage sample from the class documentation as
  a client method, and concrete queries.

Three details of the source that the model keeps:

- The reset operation is `deinit` (data_context.py:58-59).
- A multi-key query rejects values that are a string, bytes or a dict
  (data_context.py:82, 109).
- A missing field reads as `None` (data_context.py:94, 120), so it
  matches the condition `None` and any collection holding `None`.

## Model

| member | source | states |
|---|---|---|
| `Values.Match` | data_context.py:61-66 | a collection condition matches exactly its elements; any other condition (strings, bytes and dicts included) matches exactly the equal value |
| `Values.Contains` | data_context.py:65 | the left-to-right scan of `val in cond` finds `val` iff it is an element of the collection |
| `Values.Field` | data_context.py:94 | no contract of its own: `r.get(k)`, the field's value or `None` when absent; what that means for matching is stated by `Values.MissingFieldMatch` |
| `Values.MissingFieldMatch` | data_context.py:94 | a field absent from the record reads as `None`, so it matches iff the condition is `None` or a collection containing `None` |
| `Query.Zip` | data_context.py:94 | pairing equal-length key and value sequences gives one clause per position, holding the key and the value at that position |
| `Query.Normalize` | data_context.py:80-89 | a single key becomes one clause with the value as given; several keys fail with "values not iterable" when the values are not a collection, with "length mismatch" when the counts differ, and otherwise give the positional clauses |
| `Query.Satisfies` | data_context.py:94 | the `all(...)` over the clauses holds iff every positional pair matches its field; the empty condition is satisfied by every record |
| `Query.Select` | data_context.py:118-121 | its own contract is only the length bound: no more records than the input; order and membership are stated by `Query.SelectIsOrderedSubsequence` and `Query.SelectMembership` |
| `Query.First` | data_context.py:91-97 | with no satisfying record the result is `default`; any other result is a record of the input that satisfies the condition |
| `Query.FirstIsEarliest` | data_context.py:91-97 | the result is the earliest satisfying record in input order |
| `Query.FirstIsHeadOfSelect` | data_context.py:91-97 | the scan for the first match returns the head of the full match list, or `default` when that list is empty |
| `Query.SelectIsOrderedSubsequence` | data_context.py:118-121 | the result is the input read at a strictly increasing list of positions, and those positions are exactly the ones whose record satisfies the condition |
| `Query.SelectMembership` | data_context.py:118-121 | every returned record is an input record that satisfies the condition, and every satisfying input record is returned |
| `Query.SelectAppend` | data_context.py:118-121 | filtering a concatenation is the concatenation of the filtered parts |
| `Query.SelectIdempotent` | data_context.py:118-121 | filtering the result again with the same condition returns it unchanged |
| `Query.SelectEmptyCondition` | data_context.py:118-121 | with no clauses every record is kept |
| `Query.Find` | data_context.py:68-97 | fails iff several keys come with values that are not a collection of equal length; on empty input it returns `default`; a result other than `default` is an input record |
| `Query.Filter` | data_context.py:99-121 | fails on the same malformed conditions as `find`; otherwise returns at most as many records as the input, all from the input, and nothing for empty input |
| `Query.FindIsHeadOfFilter` | data_context.py:91-97 | `find` and `filter` fail on the same inputs with the same error, and `find` returns the first record of `filter`, or `default` when `filter` returns none |
| `Query.FilterErrors` | data_context.py:107-113 | several keys with values that are not a collection raise the "not iterable" error; a collection of a different length raises the "length mismatch" error |
| `Query.FindSingleKey` | data_context.py:87-97 | with one key, `find` returns the earliest record whose field matches the value |
| `Query.FilterManyKeys` | data_context.py:107-121 | with several keys and values of equal count, a record is returned iff it is in the input and each field matches the value at its position |
| `Query.EmptyConditionMatchesAll` | data_context.py:118-121 | empty key and value collections keep every record, and `find` returns the first record, or `default` on empty input |
| `Query.FilterIdempotent` | data_context.py:118-121 | running `filter` on its own result with the same condition gives the same result |
| `Store.Lookup` | data_context.py:56 | no contract of its own: `dict.get(key, default)` on the store's map; its behaviour after `set` and `deinit` is stated by `Store.LookupAfterSet` and `Store.LookupAfterDeinit` |
| `Store.LookupAfterSet` | data_context.py:52-56 | after storing under a key, reading that key gives the stored value and every other key reads as before |
| `Store.LookupAfterDeinit` | data_context.py:55-59 | in an emptied store every key reads as the default |
| `Store.DataContext.constructor` | data_context.py:46-50 | a new context holds no entries |
| `Store.DataContext.Set` | data_context.py:52-53 | the key is bound to the new value and every other binding is unchanged |
| `Store.DataContext.Get` | data_context.py:55-56 | returns the stored value for a present key, and `default` for an absent one; changes nothing |
| `Store.DataContext.Deinit` | data_context.py:58-59 | the store is empty afterwards, whatever it held before, so a second call changes nothing |
| `Usage.DocumentedSample` | data_context.py:13-41 | after reset and `set`, the store holds only the stored collection, both queries succeed, and `find` returns the first record of `filter` or `None` |
| `Usage.SingleKeyFindExample` | data_context.py:87-89 | a single-key find returns the record holding the value, and `None` when no record holds it |
| `Usage.MembershipFilterExample` | data_context.py:62-65 | a list condition keeps the records whose field is in the list, in input order |
| `Usage.MultiKeyExample` | data_context.py:80-86 | a two-key find returns the record matching both fields; two keys with one value is an arity error |

## Left out

- The singleton machinery in `__new__` (the class attribute `_instance`):
  the model has one explicitly constructed `DataContext` object.
- Python's `==` across types (`1 == True`, `1 == 1.0`) and floating-point
  values: `Value` equality is plain structural equality.
- Arbitrary iterables: every iterable other than a string, bytes or a dict
  is a finite `Coll` sequence. Generators consumed by `list(...)`, sets
  (and the `TypeError` an unhashable value raises when tested against a
  set) and dict views are not modelled.
- Lists and tuples are one `Coll` case, so the model treats `[1]` and
  `(1,)` as equal values, where Python's `==` does not. A list field
  therefore matches a condition holding the equal tuple in the model only.
- `Store.DataContext.Get` takes the default explicitly: the store is
  generic in its value type, so `get`'s own default `None` cannot be
  written there. The usage sample passes `[]` where the documentation
  calls `get` without a default; the key is present, so the result is the
  same.
- Field names other than strings: a key collection is a sequence of
  strings, and a single key is a string.
- The exception classes and messages: the two `ValueError` raises are the
  two `QueryError` values.
- `Query.Zip` assumes equal lengths, which normalisation always provides;
  the truncating behaviour of Python's `zip` on unequal lengths is not
  modelled.
