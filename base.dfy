/** Failure-carrying results shared by every part of the model. */
module Base {

  datatype Option<T> = None | Some(value: T)

  /** The exceptions the modelled code raises, by cause. */
  datatype Error =
    | NotFound           // a referenced product, order or address does not exist
    | InvalidTransition  // an order status change the guards refuse
    | NotOwned           // an address that does not belong to the user
    | MissingAttribute   // an attribute read on None (a dangling product reference)
    | InvalidValue       // a settings value of the wrong type

  datatype Result<T> = Success(value: T) | Failure(error: Error)
}
