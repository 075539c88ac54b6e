/** Failure-carrying datatypes shared by every module of the model.

    The source reports failures by throwing exceptions. A call that throws is
    modelled as `Err`, and an operation that can throw half-way through a
    sequence of side effects (the registry and the role store are not updated
    transactionally) returns the state it reached together with the error. */
module Outcomes {

  datatype Option<+T> = None | Some(value: T)

  /** One constructor per distinct error condition of the source. */
  datatype Error =
    // ConfigValueException thrown by OgRole::save()
    | GroupTypeEmpty
    | GroupBundleEmpty
    // OgRoleRequiredException thrown by OgRole::set() and OgRole::delete()
    | LockedProperty
    | RequiredRole
    // InvalidArgumentException thrown by OgRole's static helpers
    | InvalidRoleType
    | NotADefaultRoleName
    // The storage refusing a new entity whose id is already stored
    | IdTaken
    // FieldException thrown by OgGroupAudienceHelper::checkFieldCardinality()
    | NoSuchField
    | NotAudienceField
    // InvalidArgumentException documented by DefaultRoleEventInterface
    | NoSuchRole
    | RoleExists
    | EmptyRoleName
    | MissingLabel
    // The engine refusing an argument of the wrong type for a typed parameter
    | ArgumentTypeError

  datatype Result<+T> = Ok(value: T) | Err(error: Error)

  /** The state an operation reached, and the error that stopped it, if any. */
  datatype Partial<+S> = Partial(state: S, error: Option<Error>) {
    predicate Completed() { error.None? }
  }
}
