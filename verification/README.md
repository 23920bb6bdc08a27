# g2error: classified errors of the Senzing Go SDK, in Dafny

The Senzing Go SDK wraps the native `libG2` engine. When a native call
fails, the engine reports an integer error code and a message. The
`g2error` package turns that pair into a Go `error`, and lets callers ask
whether that error belongs to a category such as "retryable" or
"bad user input". This project models that package and proves what its
operations do.

- `Taxonomy` (`taxonomy.dfy`) holds the error-type ids. There are four base
  categories: BadUserInput, General (the source's `G2`), Retryable and
  Unrecoverable. There are twenty detail categories. `Other(n)` stands for
  any other id value, which the wrapping switch sends to its `default`
  branch. The code-to-ids table is a parameter `map<int, seq<TypeId>>`,
  because its contents are declared outside `g2error.go`.
- `Classification` (`classification.dfy`) defines the layered error value.
  `Plain` is `errors.New(message)`. `Classified` is a base wrapper: it embeds
  the previous error and carries an id list. `Detailed` is a detail wrapper,
  which only embeds. `Wrapped` is an error from outside the package whose
  `Unwrap` returns another error. The module also defines `G2Error`, in two forms: a
  functional fold, and the source's loop as a method proved equal to it.
  It defines `Is`, `IsInList`, the two placeholder parsers, and the
  lemmas relating them.
- `Scenarios` (`scenarios.dfy`) works through small concrete tables.

What the code does, as modelled:
- A known code's ids are wrapped in list order. The last id is therefore the
  outermost layer, and a repeated id is wrapped twice.
- Every base wrapper, and every wrapper from the `default` branch, carries
  the code's whole id list.
- `Is` reads ids only from the outermost layer. So when a code's list ends in a
  detail id, `Is` is false for every id, including those the inner base
  wrappers carry.

Further consequences of the code, as modelled:
- An unknown code yields `errors.New(message)` with no wrapper; no general
  wrapper with an empty list is added.
- Nothing stops a table list from repeating an id.
- Categories are not flattened onto one value. `Is` reports a code's ids
  exactly when the last id yields a base wrapper.

The wrapper structs are declared outside `g2error.go`. The model assumes
they embed `error` and define no `Unwrap` method, so the walk of
`errors.As` stops at them. Foreign errors that do have an `Unwrap` method,
such as those made by `fmt.Errorf` with `%w`, are represented by
`Wrapped`. Foreign errors with their own `As` method are not represented.
`errors.As` steps through `Wrapped` errors, but each block of `Is` then
reads the ids through the single-value type assertion `err.(X)` on `err`
itself. That assertion panics when `err` is the foreign wrapper. `Is`
therefore returns an outcome, `Returns(b)` or `Panics`. It panics exactly
when `err` is a foreign wrapper whose chain reaches a base wrapper (see
"## Findings"). Because Dafny functions are pure, calling `Is` twice with
the same arguments gives the same answer.

## Model

| member | source | states |
|---|---|---|
| Classification.Wrap | g2error/g2error.go:44-119 | One pass of the switch embeds the accumulator unchanged and keeps its message. It adds exactly one layer, of the kind the id selects. The layer is a base wrapper unless the id is a detail id, so unnamed ids also give a base wrapper. A base wrapper carries the whole id list. |
| Classification.WrapAll | g2error/g2error.go:41-120 | After the loop has handled a prefix of the ids: the message is still the original one. The layers correspond one-to-one, in order, to the prefix's ids, so depth equals prefix length. Every base layer carries the full list. The result is plain exactly when the prefix is empty. The outermost layer is a base wrapper exactly when the prefix's last id is not a detail id. |
| Classification.G2Error | g2error/g2error.go:40-123 | The message of the result equals the given message for every code. An unknown code gives the plain `errors.New(message)`. The layers follow the code's list in order, duplicates included. Every base layer carries the code's whole list. The outermost layer is a base wrapper, carrying that list, exactly when the list ends in a non-detail id. For a known code, removing as many layers as the list has ids reaches exactly `errors.New(message)`. |
| Classification.BuildError | g2error/g2error.go:40-123 | The source's loop, which replaces the accumulator by a wrapper for each id in turn, computes the same error as the fold `G2Error`. |
| Classification.ScanIds | g2error/g2error.go:136-140 | The range loop over an attached list finds `t` exactly when `t` is in the list. |
| Classification.BaseBelow | g2error/g2error.go:135-156 | `errors.As(err, &X{})` succeeds for exactly one category or none. The walk through foreign `Unwrap` chains stops at a base wrapper, and `errors.As` succeeds for that wrapper's category, yielding its ids. |
| Classification.Is | g2error/g2error.go:132-164 | `Is(err, t)` returns true exactly when `err` itself is one of the four base wrappers and its attached list contains `t`. It panics exactly when `err` is a foreign wrapper whose `Unwrap` chain reaches a base wrapper. In every other case the model represents, including plain and detail-wrapped errors, it returns false. Foreign errors with an `As` method are not represented. |
| Classification.IsInList | g2error/g2error.go:174-182 | `IsInList(err, ts)` returns true exactly when `Is(err, ts[i])` returns true for some index `i`. It panics exactly when `ts` is non-empty and `Is` panics on `err`. It returns false for the empty list. |
| Classification.IsCorrected | g2error/g2error.go:132-164 | The corrected `Is` reads the ids from the wrapper `errors.As` found. It never panics, and returns true exactly when the walk reaches a base wrapper whose list contains `t`. |
| Classification.G2ErrorMessage | g2error/g2error.go:17-20 | The placeholder returns the empty string for every input. |
| Classification.G2ErrorCode | g2error/g2error.go:28-31 | The placeholder returns 0 for every input. |
| Classification.UnknownCodeIsNeverClassified | g2error/g2error.go:40-164 | A code missing from the table yields `errors.New(message)`, and `Is` is false on it for every id. |
| Classification.IsIsMembershipWhenLastIsBase | g2error/g2error.go:40-164 | If the code's list is non-empty and its last id is a base id or unnamed, `Is(G2Error(code, m), t)` holds if and only if `t` is in the list. |
| Classification.IsIsFalseWhenLastIsNotBase | g2error/g2error.go:40-164 | If the code's list is empty or ends in a detail id, `Is(G2Error(code, m), t)` is false for every `t`. This includes the list's own first id. |
| Classification.PeelWrapAll | g2error/g2error.go:41-120 | Each layer embeds the previous accumulator unchanged. Removing `k` layers from the error built from a list gives the error built from all but the last `k` ids. |
| Classification.InnermostIsMessage | g2error/g2error.go:41-120 | For a known code, removing as many layers as the list has ids reaches exactly `errors.New(message)`. Removing fewer layers still leaves a wrapper, so the depth equals the list length. |
| Classification.IsInListConcat | g2error/g2error.go:174-182 | `IsInList` over `a + b` gives `IsInList` over `a` when that is true or a panic. Otherwise it gives `IsInList` over `b`. |
| Classification.IsInListOfBuilt | g2error/g2error.go:174-182 | On a built error, `IsInList` never panics. It returns true exactly when two things are true: the code's list ends in a non-detail id, and some queried id is in the code's list. |
| Classification.IsPanicsOnForeignWrapOfBuilt | g2error/g2error.go:135-157 | `Is` on a foreign `%w` wrapper around `G2Error(code, m)` panics exactly when the code's list ends in a non-detail id. |
| Classification.IsPanicsExample | g2error/g2error.go:149-150 | For a code listed as retryable and wrapped once with `%w`, `Is(..., Retryable)` panics. |
| Classification.IsCorrectedAgrees | g2error/g2error.go:132-164 | On every error that is not a foreign wrapper, the corrected `Is` gives the same outcome as `Is`. |
| Classification.IsCorrectedThroughForeignWrap | g2error/g2error.go:132-164 | With the corrected `Is`, a foreign `%w` wrapper around a built error changes nothing. The answer is true exactly when the code's list ends in a non-detail id and contains `t`. |
| Classification.StubParsersIgnoreInput | g2error/g2error.go:17-31 | If `G2Error` is fed the placeholder parsers' output, the result is the same for every exception text. Its message is empty, and it is plain when code 0 is not in the table. |
| Scenarios.GeneralOnlyCode | g2error/g2error.go:40-164 | A code listed only as general is general, is not retryable, and keeps its message. |
| Scenarios.UnlistedCode | g2error/g2error.go:40-164 | An unlisted code reports no id and keeps its message. |
| Scenarios.DetailLastHidesCategories | g2error/g2error.go:40-164 | For the list [Retryable, Database], the database wrapper is outermost around a retryable wrapper carrying both ids. `Is` reports neither id. |
| Scenarios.RepeatedAndUnnamedIds | g2error/g2error.go:40-164 | A repeated detail id gives two layers. An unnamed id gives a general base wrapper carrying the whole list, so `Is` finds the listed ids but not General. |
| Scenarios.ForeignErrorMatchesNothing | g2error/g2error.go:174-182 | `IsInList` returns false for every list on an error that is neither one of the package's wrapper structs nor has an `Unwrap` or `As` method. |
| Scenarios.CallerBuiltWrapper | g2error/g2error.go:149-155 | A retryable wrapper built by the caller is classified by the ids the caller attached: retryable, and not general. |
| Scenarios.ForeignWrapOfDetailIsFalse | g2error/g2error.go:132-164 | `Is` returns false, without panicking, on a foreign `%w` wrapper whose chain ends at a detail wrapper. |

## Left out

- The contents of the code-to-ids table and the declarations of the id constants and wrapper structs are not part of this model. The table is a parameter, the ids are a datatype, and the wrappers are constructors that embed.
- Go's `int` for the native code is 64-bit on 64-bit targets; the model uses an unbounded integer because the code is only used as a map key.
- A `nil` error passed to `Is` or `IsInList` is not modelled. On `nil`, as on `Plain`, both return false.
- Classification.Is: assumes the package's wrapper structs, which are not part of this model, define no `Unwrap`. If they did, `errors.As` would also reach a base wrapper under a detail wrapper or under another base wrapper. The assertion on `err` would then panic in more cases than the model's `Panics`.
- Classification.Is: foreign errors with their own `As(any) bool` method are not represented. `errors.As` consults that method on every error in the chain. If it fills a base-wrapper target, `errors.As` succeeds. The type assertion on `err` then panics, so the source's `Is` and `IsInList` panic where the model cannot say so.
- Classification.G2Error: the attached list is shared with the table. The source stores the table entry's own slice in the exported `G2ErrorTypeIds` field of every base wrapper of every error built for that code. A caller that writes through that field changes the table, and every later answer of `Is` for that code. The model's lists and table are immutable values, so such writes are not modelled.
- Classification.Is: foreign errors whose `Unwrap` returns several errors (`errors.Join`, `fmt.Errorf` with more than one `%w`) are not represented. `Wrapped` has a single inner error.
- The SDK's per-capability wrappers (configuration, configuration management, diagnostics, engine, product) are left out. They call the closed native library, pin OS threads, use fixed-size C buffers, format messages through an external logger, and notify observers asynchronously: all foreign calls, I/O and concurrency.
- The JSON unmarshalling helpers are left out: each is a single call into the Go standard library's JSON decoder.
- The message-template and log-level tables used by the external logging package are data, not logic, and are left out.

## Findings

| source | as written | input that shows it | evidently intended | confidence | as-written member | corrected member |
|---|---|---|---|---|---|---|
| g2error/g2error.go:135-157 | Each block calls `errors.As(err, &X{})`, which walks `Unwrap` chains. It then reads the ids through the single-value assertion `err.(X)` on `err` itself. | `Is(fmt.Errorf("ctx: %w", G2Error(c, "boom")), G2Retryable)` where the table maps `c` to `[G2Retryable]`: `errors.As` succeeds on the inner wrapper, and `err.(G2RetryableError)` panics on the `fmt` wrapper. | Read the ids from the wrapper `errors.As` stored in its target, so `Is` never panics and sees through foreign wrappers. | medium; not executed | Classification.IsPanicsOnForeignWrapOfBuilt | Classification.IsCorrectedThroughForeignWrap |

`Classification.IsPanicsExample` is the concrete instance of this row.
`Classification.IsCorrectedAgrees` shows that the corrected definition
and `Is` agree on every error that is not a foreign wrapper. All the
properties above about errors built by `G2Error` therefore hold for the
corrected definition too. `IsInList` is kept over the as-written `Is`,
because that is the behaviour callers of the package observe.
