/** Shared vocabulary of the model. */
module Prelude {
  datatype Option<+T> = None | Some(value: T)

  datatype Result<+T, +E> = Ok(value: T) | Err(error: E)
}

/** Deterministic idempotency keys. Each constructor is one key format of the application. */
module JobKeys {
  datatype JobKey =
    | ScheduledTick(window: int)
    | ManualTick(request: string)
    | ClassifyMessage(message: nat)
    | ReviewMove(reviewed: nat, classification: string)
    | SelectTariffs(invoice: nat)
    | Other(text: string)
}
