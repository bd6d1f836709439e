/** The vocabulary of actions (internal/types/models.go) that planning and execution share. */
module ActionTypes {

  datatype ActionKind = Merge | Close | Comment | Label | RequestChanges | ApplyFix | NoAction | OtherAction

  datatype PolicyProfile = Unset | Advisory | Guarded | Autonomous | OtherProfile
}
