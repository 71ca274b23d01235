/** An optional value: the model's rendering of a TypeScript `T | undefined`
    field or a `T | null` state variable. */
module Optional {

  datatype Option<+T> = None | Some(value: T)

}
