/** An optional value: JavaScript's `undefined`, `null` or `NaN` beside a real value. */
module Wrappers {
  datatype Option<+T> = None | Some(value: T)
}

/** The record types shared by the form and the directory (types.ts). */
module Types {

  import opened Wrappers

  /** The three values of an employee's `gender` field. */
  datatype Gender = Male | Female | Other

  /** A JavaScript number holding one coordinate. The model never inspects it:
      it is only stored, copied and compared. */
  datatype Coordinate = Coordinate(value: real)

  datatype LocationData = LocationData(latitude: Coordinate, longitude: Coordinate)

  /** Everything an employee record holds except its id. `age` is `None` when the
      draft holds the empty string that the age input's coercion produces; `location`
      is `None` when it is undefined. */
  datatype EmployeeFormData = EmployeeFormData(
    fullName: string,
    email: string,
    phone: string,
    age: Option<int>,
    gender: Gender,
    department: string,
    address: string,
    location: Option<LocationData>)

  /** An employee record: its id beside the editable fields. */
  datatype Employee = Employee(id: string, data: EmployeeFormData)
}
