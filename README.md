# refstruct, modelled in Dafny

refstruct is a build-time code generator for "staged self-referential structs" in Rust. A
build script calls `Scanner::process_file` on each source file. It looks for lines holding
`ref_struct!`. Each such invocation carries a raw string with a small TOML declaration:
`name`, an optional `module`, an optional `use` list, and `fields`, a list of
`[identifier, type]` pairs. A field type may mention `'_`, which stands for "the lifetime of
the struct itself". `StructWriter::from_toml` validates the declaration. `write_struct` then
emits a module with:

- a `Raw` struct holding every field;
- a `Ptr` impl with one unsafe view per field;
- one type `Step{k}` per field count k.

It also emits a public wrapper outside that module. `Step1::new` writes the first field into
a zeroed heap buffer. With N fields, each `Step{k}` with k < N has a transition named after
field k+1, which computes that field from a borrow of the step, writes it, and hands the
buffer on. The last step `build`s the public struct. `Drop` of `Step{k}` releases field k
and then drops the buffer as a `Step{k-1}`, so fields are released in reverse order and each
exactly once.

The project has these modules:

- `Wrappers`: `Option` and `Result`.
- `Text`: the string operations the generator relies on: find, replace, ASCII lower-casing,
  and decimal formatting.
- `Toml`: the already-parsed TOML value tree.
- `Config`: `StructWriter` and `from_toml`. The validation loop is a method, proved equal to
  the declarative `Configure`.
- `Emit`: the `write_*` functions, as exact text.
  - `PlanStep` states which members `Step{k}` gets.
  - `RenderStep` and the other text functions reproduce each `format!` template.
- `EmitFacts`: what that text promises. It covers each step's members, where `'_` is
  substituted, and the order of every part.
- `Scanner`: the line loop of `process_file`, as an imperative method.
  - The method is proved equal to a scan described invocation by invocation (`ScanFrom`).
  - The scan is stated for any `gen` that turns an invocation's text into generated code.
  - `process_file` itself is `ProcessFile(path, lines, Handler(parse))`: `from_toml`
    followed by `write_struct` (see `Invocation` and `HandleCases`).
- `Staged`: the run-time protocol that the emitted code implements, as classes.
  - A `Buffer` holds one slot per field.
  - A `Stage` is a `Step{k}` owning that buffer.
  - A `Log` records each release of a field value and the freeing of the buffer.

How the model relates to the source:

- The `new` constructors emitted at `refstruct/src/lib.rs:163` and `refstruct/src/lib.rs:222`
  take the first field's type as declared. Every other emitted field type has `'_` replaced
  by the lifetime. The model keeps this exception (`NewTakesDeclaredType`,
  `OuterNewTakesDeclaredType`, `DeclaredTypeIsNotSubstituted`).
- The scanner searches for the literal `ref_struct!` (`refstruct/src/lib.rs:54`). The macro
  the crate exports is named `refstruct!` (`refstruct/src/lib.rs:4`), so an invocation written
  with the exported name, as in `tests/src/vulkan.rs:31`, is not picked up: a line without
  `_` never holds the marker (`ExportedNameIsNotScanned`), and a file in which no line holds
  it, as is the case for all of `tests/src/vulkan.rs`, produces nothing (`NoMarkerNoOutput`).
- The error for an unterminated invocation uses `errstr`, which is only set when an
  invocation closes. That message is therefore empty or names the previous invocation
  (`FirstInvocationUnterminated`, `UnterminatedNamesPreviousInvocation`). A terminator on
  the marker's own line is not seen (`OneLineInvocationIsUnterminated`).
- A declaration with an empty `fields` list is accepted by `from_toml`. `write_struct` then
  indexes `fields[0]` and panics. The model reports this as the `Panicked` outcome.

## Model

| member | source | states |
|---|---|---|
| Config.Configure | refstruct/src/lib.rs:94-117 | No ensures: the declarative reference for `from_toml`, the checks in source order; its properties are `AcceptedIff`, `ErrorMessages`, `AcceptedContents` and `OptionalKeysNeverReject`, and `FromToml` is proved equal to it |
| Config.FromToml | refstruct/src/lib.rs:94-117 | The validation loop returns exactly `Configure(doc)`: the error of the first failing check, or the writer with every entry of `fields` in order |
| Config.FirstBadEntry | refstruct/src/lib.rs:107-110 | The result is the index of the first entry that is not an array whose elements 0 and 1 are strings; every earlier entry passes; the result is the length when all pass |
| Config.StringsOf | refstruct/src/lib.rs:102-103 | The imports are exactly the string entries of `use`, none added, the rest dropped; there are no more of them than entries |
| Config.StringsOfConcat | refstruct/src/lib.rs:103 | The strings of `a + b` are the strings of `a` followed by those of `b`; with `StringsOfOne`, the imports are the string entries of `use` in their order, duplicates kept |
| Config.StringsOfOne | refstruct/src/lib.rs:103 | One entry contributes its string, or nothing when it is not a string |
| Config.AcceptedIff | refstruct/src/lib.rs:96-111 | The declaration is accepted if and only if it parsed, `name` is a string, `fields` is an array, and every entry is an array whose first two elements are strings |
| Config.ErrorMessages | refstruct/src/lib.rs:96-110 | Each rejection carries the message of the first check that fails, in the order syntax, `name`, `fields`, then the first bad entry |
| Config.AcceptedContents | refstruct/src/lib.rs:98-116 | When accepted: the name is the `name` string; `module` defaults to the lower-cased name; the lifetime is `'` followed by the module; the imports are `StringsOf` of the `use` list, so its string entries in order, and none when it is absent; the fields are the entries' first two strings, in declaration order |
| Config.OptionalKeysNeverReject | refstruct/src/lib.rs:99-103 | Changing `module` or `use` never changes whether a declaration is accepted; a key the code never reads, such as `namespace`, changes nothing |
| Text.Contains | refstruct/src/lib.rs:54-58 | No ensures: `find(pat).is_some()`, a match at some position; used through `ContainsInfix`, `ContainsLeft`, `ContainsRight` and `NoCharNoContains` |
| Text.Replace | refstruct/src/lib.rs:137 | No ensures: `str::replace`, the leftmost non-overlapping occurrences replaced from left to right; properties in `ReplaceAbsent` and `ReplacePlaceholderComplete` |
| Text.ToLower | refstruct/src/lib.rs:99 | Lower-casing keeps the length and maps each character on its own |
| Text.ToLowerIdempotent | refstruct/src/lib.rs:99 | Lower-casing twice equals lower-casing once, and leaves no upper-case ASCII letter |
| Text.NatToString | refstruct/src/lib.rs:73 | The decimal name of an output file is non-empty and made of digits only |
| Text.NatToStringRoundTrip | refstruct/src/lib.rs:73 | Reading the decimal name back gives the line number |
| Text.ReplaceAbsent | refstruct/src/lib.rs:137 | A type without the placeholder is unchanged by the substitution |
| Text.ReplacePlaceholderComplete | refstruct/src/lib.rs:137 | After replacing `'_` by a lifetime `'m`, where `m` is non-empty, has no apostrophe and does not start with `_`, no placeholder is left |
| Emit.WritePtr | refstruct/src/lib.rs:126-142 | No ensures: the body is the exact `format!` text of `write_ptr`; properties in `EmitFacts.PtrHasView` and `EmitFacts.PtrViewsInOrder` |
| Emit.WritePtrWrite | refstruct/src/lib.rs:145-148 | No ensures: the body is the exact `format!` text of `write_ptrwrite`; where it is used is stated by `EmitFacts.CtorWritesFirstField` and `EmitFacts.AdvanceWritesField` |
| Emit.PlanStep | refstruct/src/lib.rs:150-212 | No ensures: which parts `Step{k}` gets, decided by k and N as in `write_step`; stated by `EmitFacts.StepMethods` |
| Emit.RenderStep | refstruct/src/lib.rs:150-212 | No ensures: the body is the exact `format!` text of `write_step` for a plan; properties in `EmitFacts.StepMethods` and the `EmitFacts.Step*` lemmas |
| Emit.WriteStep | refstruct/src/lib.rs:150-212 | No ensures: `write_step(k)`, the rendering of `PlanStep(w, k)`; properties in `EmitFacts.LastStepHasBuild`, `StepHasAdvance`, `StepHasGetter`, `StepHasRelease` and `NewTakesDeclaredType` |
| Emit.WriteOuter | refstruct/src/lib.rs:214-233 | No ensures: the body is the exact `format!` text of `write_outer`; properties in `EmitFacts.OuterNewTakesDeclaredType` and `EmitFacts.OuterHasAccessor` |
| Emit.WriteStruct | refstruct/src/lib.rs:235-266 | No ensures: the body is the exact text of `write_struct`; properties in `EmitFacts.StructOpensWithModule`, `StructHasStep` and `StructEndsWithOuter` |
| Emit.Accessors | refstruct/src/lib.rs:248-249 | One accessor per declared field, in order, each with its name and its substituted type |
| EmitFacts.StepMethods | refstruct/src/lib.rs:156-209 | `Step{k}` has `new` if and only if k = 1, taking field 1's declared type; `build` returning `super::name` if and only if k = N; a transition named after field k+1 to `Step{k+1}`, returning its substituted type, if and only if k < N; getters for exactly fields 1..k, in order; a `Drop` that reads field k and re-wraps the buffer as `Step{k-1}` if and only if k > 1 |
| EmitFacts.SubstitutionSites | refstruct/src/lib.rs:186-195 | The type emitted for field i by the views, `Raw`, step getters, transitions and outer accessors is the declared type with `'_` replaced by the lifetime; without a placeholder it is the declared type; with a well-formed lifetime no placeholder remains |
| EmitFacts.NewTakesDeclaredType | refstruct/src/lib.rs:157-163 | `Step1` contains `new(p: T)` with T the first field's type as declared, not substituted |
| EmitFacts.OuterNewTakesDeclaredType | refstruct/src/lib.rs:215-222 | The outer struct's `new(a: T)` also takes the first field's type as declared |
| EmitFacts.DeclaredTypeIsNotSubstituted | refstruct/src/lib.rs:163 | For a first field `Dev<'_>` with lifetime `'foo`, `new` takes `Dev<'_>` while every accessor uses `Dev<'foo>` |
| EmitFacts.PtrHasView | refstruct/src/lib.rs:126-142 | The `Ptr` impl contains the view of every field, and every view checks that the buffer has the length of `Raw` |
| EmitFacts.PtrViewsInOrder | refstruct/src/lib.rs:130-139 | The view of field i is immediately followed by the view of field i+1 |
| EmitFacts.UsesInOrder | refstruct/src/lib.rs:240-243 | There is one `use` line per import, each immediately followed by the next import's line |
| EmitFacts.RawHasMember | refstruct/src/lib.rs:245-251 | `Raw` has a member for every field with its substituted type, each immediately followed by the next field's member |
| EmitFacts.LastStepHasBuild | refstruct/src/lib.rs:166-170 | The text of `Step{N}` contains `build(self) -> super::name` |
| EmitFacts.StepHasAdvance | refstruct/src/lib.rs:172-188 | For k < N, the text of `Step{k}` contains the transition named after field k+1, leading to `Step{k+1}`, with field k+1's substituted type as the closure's result |
| EmitFacts.CtorWritesFirstField | refstruct/src/lib.rs:157-163 | `Step1::new` stores `p` into the new box `r` with `write_ptrwrite("r", field 1, "p")`, through the view of field 1 |
| EmitFacts.AdvanceWritesField | refstruct/src/lib.rs:172-188 | A transition stores the closure's result `r` into `self.0` with `write_ptrwrite("self.0", k, "r")`, through the view of the field it is named after |
| EmitFacts.StepHasRelease | refstruct/src/lib.rs:200-209 | The text of `Step{k}` contains its `Drop` impl, which reads field k and, exactly when k > 1, re-wraps the buffer as `Step{k-1}` |
| EmitFacts.StepHasGetter | refstruct/src/lib.rs:190-196 | The text of `Step{k}` contains the getter of every field i < k |
| EmitFacts.OuterHasAccessor | refstruct/src/lib.rs:223-230 | The outer struct contains a forwarding accessor for every field |
| EmitFacts.StepEmitted | refstruct/src/lib.rs:258 | The text of every `Step{k}`, k <= n, is part of the text of the first n steps |
| EmitFacts.StepsInOrder | refstruct/src/lib.rs:258 | `Step{j}` is immediately followed by `Step{j+1}` |
| EmitFacts.StructOpensWithModule | refstruct/src/lib.rs:236-251 | `write_struct` starts with the module header, the `use` lines and `Raw` |
| EmitFacts.StructHasStep | refstruct/src/lib.rs:257-258 | Every step's text is part of `write_struct`'s output |
| EmitFacts.StructEndsWithOuter | refstruct/src/lib.rs:260-264 | The outer struct comes right after the module's closing brace, outside the module |
| Scanner.Handle | refstruct/src/lib.rs:66-68 | No ensures: what one closed invocation yields, `from_toml` then `write_struct`, as a value; stated by `HandleCases`, and `Invocation` is proved equal to it |
| Scanner.ScanFrom | refstruct/src/lib.rs:50-80 | No ensures: the scan described invocation by invocation, from the next marker line; `ProcessFile` and `RunIsScan` are proved equal to it, and `ScanOutputs` states its outputs |
| Scanner.BlockAt | refstruct/src/lib.rs:58-79 | No ensures: from a marker line, the next terminator line closes the invocation; without one the scan fails with `errstr` and ` is not a raw string literal`; stated by `BlockOutputs`, `FirstInvocationUnterminated` and `UnterminatedNamesPreviousInvocation` |
| Scanner.Closed | refstruct/src/lib.rs:64-76 | No ensures: one closed invocation, rejected, panicking, or written and scanned on; stated by `ClosedResult` |
| Scanner.FindLine | refstruct/src/lib.rs:53-58 | The result is the first line at or after `from` containing the pattern, or the number of lines when there is none |
| Scanner.ProcessFile | refstruct/src/lib.rs:42-80 | The line loop, with its `startline`, `s` and `errstr` state, returns exactly the invocation-by-invocation scan `ScanFrom(path, lines, 0, "", gen)` |
| Scanner.RunIsScan | refstruct/src/lib.rs:50-80 | Running the loop's line-by-line semantics from the start equals the invocation-by-invocation scan |
| Scanner.Invocation | refstruct/src/lib.rs:66-68 | The work for one closed invocation is `from_toml` and then `write_struct`, yielding `Handle(parse, s)` |
| Scanner.HandleCases | refstruct/src/lib.rs:66-68 | An invocation is rejected if and only if its declaration is not acceptable, and the reason is the `from_toml` error; it panics if and only if it is acceptable with no fields; otherwise the generated code is `write_struct` of the validated writer |
| Scanner.ClosedResult | refstruct/src/lib.rs:64-76 | A closed invocation fails with `location + " " + reason` on rejection, panics without fields, and otherwise writes file `m+1` and scans on after the terminator line |
| Scanner.ScanOutputs | refstruct/src/lib.rs:53-76 | Every output file is named after a line within the file that holds the marker, after where the scan started, and the names strictly increase |
| Scanner.BlockOutputs | refstruct/src/lib.rs:53-76 | The same holds for the scan from an invocation's marker line |
| Scanner.OutputNamesDistinct | refstruct/src/lib.rs:72-73 | Two files written by one scan get different decimal names |
| Scanner.RejectionNamesInvocation | refstruct/src/lib.rs:64-67 | A rejected declaration stops the scan with `ref_struct macro at <path>:<line> <reason>` for that invocation's line |
| Scanner.NoMarkerNoOutput | refstruct/src/lib.rs:53-56 | A file in which no line holds `ref_struct!` produces no output and no error |
| Scanner.ExportedNameIsNotScanned | refstruct/src/lib.rs:54 | A line without `_`, such as an invocation of the exported `refstruct!`, never holds the marker |
| Scanner.NoUnderscoreNoOutput | refstruct/src/lib.rs:53-56 | A file without any `_` has no marker line, and so produces no output and no error |
| Scanner.FirstInvocationUnterminated | refstruct/src/lib.rs:47-79 | When no terminator line follows the first marker line, the scan fails with ` is not a raw string literal`, carrying no location |
| Scanner.OneLineInvocationIsUnterminated | refstruct/src/lib.rs:53-79 | Example: the one-line file `ref_struct!(r#""#)` fails as unterminated, because the terminator on the marker's own line is not seen |
| Scanner.UnterminatedNamesPreviousInvocation | refstruct/src/lib.rs:64-79 | When the first invocation closes and is generated, and the next one has no terminator after it, the scan writes the first file and fails with the first invocation's location |
| Staged.ReleaseOrder | refstruct/src/lib.rs:200-209 | No ensures: the events of dropping `Step{k}` with fields `fs`, field k first and then the drop of `Step{k-1}`, down to freeing the box; stated by `ReleaseOrderExactlyOnce`, and `Stage.Drop` is proved to log it |
| Staged.ReleaseOrderExactlyOnce | refstruct/src/lib.rs:200-209 | Dropping a step with k fields releases fields k, k-1, ..., 1 in that order, each once, and then frees the buffer once |
| Staged.Buffer.Zeroed | refstruct/src/lib.rs:159-160 | The allocation has one zeroed slot per field |
| Staged.Buffer.Empty | refstruct/src/lib.rs:183 | The replacement box is empty |
| Staged.Stage.New | refstruct/src/lib.rs:157-163 | `Step1::new(p)` owns a fresh buffer of the full length whose first slot holds `p` and whose other slots are unwritten |
| Staged.Stage.Wrap | refstruct/src/lib.rs:185 | `Step{k}(b)` takes over the buffer `b` as it is |
| Staged.Stage.Get | refstruct/src/lib.rs:190-196 | Getter i returns the value written into field i |
| Staged.Stage.Advance | refstruct/src/lib.rs:172-188 | The slot written was unwritten, so no value is overwritten; the next step owns the same buffer with the same length; its fields are the old fields plus `f` of the old step; the old step holds the empty box; nothing is released |
| Staged.Stage.Drop | refstruct/src/lib.rs:200-209 | Dropping adds exactly the release order of the step's fields to the log, and every value has been moved out of the buffer |
| Staged.Stage.Build | refstruct/src/lib.rs:166-170 | `build` wraps the last step in the public struct |
| Staged.Finished.Get | refstruct/src/lib.rs:223-230 | The outer accessor returns the last step's field i |
| Staged.Finished.Drop | refstruct/src/lib.rs:215-217 | Dropping the public struct drops its last step, with the same release order, leaving no value in the buffer |
| Staged.FooFinderRoundTrip | tests/src/main.rs:15-18 | `FooFinder::new(data).foos(f).build()` returns `data` for `data()` and `f` of the first step for `foos()` |
| Staged.VulkanTeardown | tests/src/vulkan.rs:43-50 | Building `Vulkan` and letting it go releases the command buffer, then the program, then the device, and only then frees the buffer |

## Left out

- File I/O: opening, reading lines, `create_dir_all`, creating and writing output files, and
  their errors. The file's lines are a parameter. The written files are the returned list;
  files written before a failure stay in it, as they stay on disk.
- `Scanner::process_src` and `Scanner::process_dir` (`refstruct/src/lib.rs:14-40`): they read
  environment variables and walk directories, which is I/O only.
- The TOML parser: it is a third-party crate. Its result is the `Document` parameter `parse`,
  and a syntax failure is its `Invalid(errors)` text.
- The exported `refstruct!` macro: it is evaluated by the compiler at build time.
- The panic message for a declaration without fields: the model only records that the scan panics.
- Memory layout, `unsafe` pointer casts, `ptr::write`, `ptr::read` and Rust lifetimes: the
  buffer is modelled as one slot per field, and field values as abstract values.
- The generated Rust is text; the model does not type-check it.
- The commented-out `write_getter` and the `PtrMut` variant of `write_ptr`: they are not part
  of the program that runs.
- Text.ToLower: only ASCII letters are lower-cased. `str::to_lowercase` also maps non-ASCII
  letters, sometimes to several characters.
- Staged.Stage.Get: the `debug_assert_eq!` length check of the view is not modelled as an
  assertion at run time; that the buffer keeps the length of `Raw` is a field invariant
  (`Valid`) instead, and `EmitFacts.PtrHasView` shows that every emitted view contains the check.
- Staged.Stage.Advance: `f` is a function of the fields so far. The borrow it receives, and
  any side effect it has, are not modelled.
