# OnComplete: the completion signal of a reactive stream

This project models `OnComplete`, the completion variant of the reactive
stream `Signal` type in `org.springframework.reactive.util`. A `Signal` is
one event of an asynchronous stream. It answers three tag queries:
`isComplete`, `isOnNext` and `isOnError`. It also has two payload
accessors: `next()` for the value and `error()` for the failure cause. The
completion signal marks the end of a stream and carries no payload. It
says it is a completion and nothing else. Both accessors throw
`IllegalStateException`. One shared instance, `INSTANCE`, serves every
stream.

The model is pure, like the Java class (no fields, no loops):

- `ReactiveUtil.OnComplete` is a datatype with one constructor and no fields.
  The static constant `OnComplete.Instance` is the shared `INSTANCE`.
  The datatype has no type parameter, because `INSTANCE` is raw-typed and
  serves every element type. The class's type parameter `T` occurs only in
  the return type of `next()`, so it is the type parameter of `Next<T>`.
- A thrown exception is a `Results.Result` failure, so "always throws" is a
  postcondition. `StateError.IllegalStateException` is the exception thrown
  with no message.
- `error()` returns `java.lang.Throwable`, which is not part of this model. It
  is the type parameter `Cause` of `Error<Cause>`.
- `HonoursSignalContract` states the documented contract of the `Signal`
  interface. The interface's own source text is not part of this model; only
  `implements Signal<T>` is visible. Exactly one tag holds. `next()` returns a value exactly when
  `isOnNext` holds. `error()` returns a cause exactly when `isOnError` holds.
  Any other access throws `IllegalStateException`. "Exactly one" is counted
  with `CountTrue`.

## Model

| member | source | states |
|---|---|---|
| `ReactiveUtil.OnComplete.IsComplete` | src/main/java/org/springframework/reactive/util/OnComplete.java:29-32 | `isComplete()` is true for the completion signal, unconditionally |
| `ReactiveUtil.OnComplete.IsOnNext` | src/main/java/org/springframework/reactive/util/OnComplete.java:34-37 | `isOnNext()` is false for the completion signal, unconditionally |
| `ReactiveUtil.OnComplete.Next` | src/main/java/org/springframework/reactive/util/OnComplete.java:39-42 | `next()` never yields a value; it always fails with `IllegalStateException`, for every element type |
| `ReactiveUtil.OnComplete.IsOnError` | src/main/java/org/springframework/reactive/util/OnComplete.java:44-47 | `isOnError()` is false for the completion signal, unconditionally |
| `ReactiveUtil.OnComplete.Error` | src/main/java/org/springframework/reactive/util/OnComplete.java:49-52 | `error()` never yields a cause; it always fails with `IllegalStateException` |
| `ReactiveUtil.OnCompleteHonoursSignalContract` | src/main/java/org/springframework/reactive/util/OnComplete.java:22-52 | the completion signal keeps the `Signal` contract for every `T` and cause type: exactly one of its three tags holds, and each accessor fails exactly when its tag is false, with `IllegalStateException` |
| `ReactiveUtil.CompletionAnswersForced` | src/main/java/org/springframework/reactive/util/OnComplete.java:29-52 | any five answers that keep the `Signal` contract and say `isComplete` are exactly the completion signal's answers: the other tags are false and both accessors throw `IllegalStateException` |
| `ReactiveUtil.SingleInstance` | src/main/java/org/springframework/reactive/util/OnComplete.java:24-27 | there is one completion signal: any two completion signals are equal, and both are the shared `INSTANCE` |
| `ReactiveUtil.AnswersIndependentOfTypeArguments` | src/main/java/org/springframework/reactive/util/OnComplete.java:22-54 | the completion signal keeps no per-element state: its accessors fail in the same way whatever the element type or cause type |

## Left out

- The `Signal` interface and its `OnNext` and `OnError` variants are not part of this model. The interface's documented contract is stated as `HonoursSignalContract`; its clauses on successful `next()` and `error()` describe the unseen variants and are never used in that direction. Only the completion signal is proved to keep the contract.
- Stream sequencing: values followed by one terminal signal and nothing after it. The class does not enforce this.
- Java reference identity, raw-type generics and sharing `INSTANCE` across threads are runtime details. The singleton is one datatype value. Its uniqueness is `SingleInstance`.
- The private constructor has no member of its own. A datatype with one field-less constructor has exactly one value, and that value is `INSTANCE`.
- The content-negotiation test (`ContentNegotiatingResultHandlerSupportTests`) is not part of this model. `selectMediaType`, media-type parsing and quality-value sorting are not visible in the source files. The request, response, session and conversion mocks are framework wiring.
