module Values {

  datatype Option<+T> = None | Some(value: T) {
    function Or(other: T): T { if Some? then value else other }
  }

  /** The value of a Terraform attribute. */
  datatype Value<+T> = Null | Unknown | Known(v: T) {
    function Or(other: T): T { if Known? then v else other }
  }
}
