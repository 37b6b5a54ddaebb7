# rmcp-core service traits, modelled in Dafny

This project models the core contract layer of the rmcp crates
(`crates/rmcp-core/src/service_traits.rs`):

- **Identifier provisioning.** `AtomicU32Provider` holds one unsigned
  32-bit counter that starts at 0. `next_request_id` and
  `next_progress_token` both `fetch_add(1)` on that counter and wrap the
  value it held before the call as `NumberOrString::Number`. The progress
  token also wraps it in `ProgressToken`. The model is the class
  `IdProviders.AtomicU32Provider` with the field `id : U32`. Its two methods
  state the returned value and the new counter in terms of `old(id)`.
  Two ghost fields record the calls made so far and their answers, and
  `Valid()` ties that history to the pure function `IssuedBy(start, calls)`.
  `IssuedBy` gives what a provider hands back for any sequence of calls of
  either kind. The lemmas about `IssuedBy` state the following:
  - every answer is a `Number`;
  - both kinds draw consecutive values from one counter;
  - the counter wraps from 4294967295 to 0;
  - two answers carry the same number exactly when a multiple of 2^32 calls
    separates them, so at most 2^32 successive calls are pairwise distinct.
- **Handling context.** `RequestContext` is the record passed to
  `handle_request`. It carries the identifier of the request being served.
- **Type-erased dispatch.** A `Service` is modelled as its three operations
  (`handle_request`, `handle_notification`, `get_info`), kept as function
  fields of a datatype. A `DynService` has the same operations, with the
  handlers returning a boxed future. `AsDynService` is the blanket
  `impl DynService for S: Service`. `DynServiceIsTransparent` proves that
  the adapter resolves to exactly what the wrapped service returns.

Module `Model` holds the value shapes these are written against: `U32` and
its wrapping addition, the integer-or-string identifier of JSON-RPC 2.0
(section 4, "Request object", member `id`), `ProgressToken` and `Result`.
The source takes these from a `model` module. `model` is not part of this
model, so they are stated minimally. `Number` carries a `U32`, because that
is what `fetch_add` returns.

The source gives counter wraparound no special case of its own.
`AtomicU32::fetch_add` wraps modulo 2^32, so the model follows that and
proves the wraparound boundary explicitly.

## Model

| member | source | states |
|---|---|---|
| `Model.WrappingAdd` | crates/rmcp-core/src/service_traits.rs:169 | the u32 sum `fetch_add` stores: the plain sum when it fits, otherwise the sum less 2^32 |
| `IdProviders.Emit` | crates/rmcp-core/src/service_traits.rs:166-179 | a call of either kind hands back `Number(v)` for the pre-call counter `v`, in the wrapper of the operation called |
| `IdProviders.AtomicU32Provider.constructor` | crates/rmcp-core/src/service_traits.rs:161-164 | a defaulted provider's counter is 0 and it has handed back nothing yet |
| `IdProviders.AtomicU32Provider.FetchAdd` | crates/rmcp-core/src/service_traits.rs:169 | `fetch_add` returns the counter's old value and adds `delta` to it with wrap-around |
| `IdProviders.AtomicU32Provider.NextRequestId` | crates/rmcp-core/src/service_traits.rs:166-171 | returns `Number(old(id))`; the counter becomes `old(id) + 1` mod 2^32; the history grows by this one call; the provider stays valid |
| `IdProviders.AtomicU32Provider.NextProgressToken` | crates/rmcp-core/src/service_traits.rs:173-179 | returns `ProgressToken(Number(old(id)))`; advances the same counter by one mod 2^32; history grows by this one call |
| `IdProviders.Advance` | crates/rmcp-core/src/service_traits.rs:169 | the counter after `n` calls that each `fetch_add(1)`; while no overflow happens it is exactly `start + n` |
| `IdProviders.IssuedBy` | crates/rmcp-core/src/service_traits.rs:161-179 | the answers a provider hands back, in order, for any sequence of calls of either kind: one answer per call |
| `IdProviders.AdvanceIsModular` | crates/rmcp-core/src/service_traits.rs:166-179 | after `n` calls, the counter is `start + n` reduced modulo 2^32 |
| `IdProviders.IssuedByAt` | crates/rmcp-core/src/service_traits.rs:162-179 | the i-th call, whichever of the two kinds, hands back the counter value after i earlier calls |
| `IdProviders.FirstIdentifierIsZero` | crates/rmcp-core/src/service_traits.rs:161-164 | the first identifier of either kind from a defaulted provider is `Number(0)` |
| `IdProviders.IssuedByOnlyNumbers` | crates/rmcp-core/src/service_traits.rs:169-175 | every identifier handed back is the `Number` variant, in the wrapper of the operation called |
| `IdProviders.IssuedByConsecutive` | crates/rmcp-core/src/service_traits.rs:162-177 | two successive calls of any kinds hand back numbers `v` and `v + 1` mod 2^32 (one shared counter) |
| `IdProviders.IssuedByWrapsAround` | crates/rmcp-core/src/service_traits.rs:169-176 | the call after the one that hands back 4294967295 hands back 0 |
| `IdProviders.IssuedBySameNumberIff` | crates/rmcp-core/src/service_traits.rs:169-176 | calls i and j hand back the same number if and only if j - i is a multiple of 2^32 |
| `IdProviders.IssuedByDistinct` | crates/rmcp-core/src/service_traits.rs:162-177 | any run of at most 2^32 calls hands back pairwise distinct numbers |
| `IdProviders.RequestIdAndTokenNeverCollide` | crates/rmcp-core/src/service_traits.rs:162-177 | within one wrap cycle, a request identifier and a progress token never carry the same number |
| `IdProviders.ProviderAnswersDistinct` | crates/rmcp-core/src/service_traits.rs:161-179 | a valid provider that has served at most 2^32 calls since it was defaulted has handed back pairwise distinct identifiers |
| `IdProviders.DefaultProviderFirstCalls` | crates/rmcp-core/src/service_traits.rs:161-179 | a defaulted provider answers a request-id call and then a progress-token call with 0 and then 1 |
| `Services.ContextIsItsRequestId` | crates/rmcp-core/src/service_traits.rs:60-67 | a request context is determined by its `request_id` alone |
| `Services.AsDynService` | crates/rmcp-core/src/service_traits.rs:120-148 | each adapter operation boxes the wrapped service's own result: for every request and context, and every notification, the boxed future resolves to what the service returns; `get_info` is the service's |
| `Services.DynServiceIsTransparent` | crates/rmcp-core/src/service_traits.rs:120-148 | through the adapter, all three operations resolve to exactly what the wrapped service returns for the same arguments, success or error |

## Left out

- `TransferObject` and `ServiceRole` (crates/rmcp-core/src/service_traits.rs:12-36) are compile-time trait bounds (serde, `Send`, `Sync`, `'static`, `Copy`). They have no runtime behaviour. The role's payload shapes become type parameters of `Service` and `DynService`.
- The conversions between notifications and `CancelledNotification` are left out. They are implied by the `TryInto` and `From` bounds on lines 25-32, but their implementations live in the `model` module, which is not part of this model. No round-trip law is asserted.
- Async execution, `Future` and `BoxFuture` mechanics are left out. A future is modelled by the value it resolves to.
- Concurrency is left out: the `SeqCst` ordering and concurrent callers of the atomic counter. The counter is modelled sequentially, one call at a time.
- `McpError` is foreign to the file, so it is a type parameter.
- The `RequestContext` role marker (`PhantomData<R>`) is zero-sized and is not modelled.
- A `Service`'s internal state is not modelled separately. Each operation is modelled as a function of its arguments.
- The type aliases on lines 182-183 only rename `AtomicU32Provider`.
- Commented-out code is dead and not modelled. This covers:
  - the message aliases (lines 43-49);
  - the peer accessors in `Service`, in `DynService` and in its impl (lines 86-90, 113-114, 137-143);
  - the `context` parameters of the notification handlers (lines 83, 110, 132).
- `DynService` and its blanket impl exist only when the `async_traits` feature is enabled (lines 5, 99, 119). The model always includes them; feature gating is a build concern.
- `crates/rmcp/src/lib.rs` and `crates/rmcp-core/src/lib.rs` hold only module declarations and re-exports.
