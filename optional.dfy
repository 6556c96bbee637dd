/** An optional value: the sensor either delivers a number or signals a
    failed read (NaN in the firmware). */
module Optional {
  datatype Option<T> = None | Some(value: T)
}
