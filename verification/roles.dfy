/** The role of a component in a data structure. */
module Roles {

  datatype Role = Identifier | Measure | Attribute
}
