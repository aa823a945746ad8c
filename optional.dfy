/** The `Option` value the firmware uses for empty heap slots, missing alarms and absent results. */
module Optional {

  datatype Option<+T> = None | Some(value: T)
}
