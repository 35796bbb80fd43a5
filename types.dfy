/** Scalar types shared by the enumerator and the renderers. The binding
    declares them as Go named types over GUIDs and 32-bit unsigned integers;
    their declarations (types.go) are not part of this model. */
module Types {

  /** A GUID as its 128 bits; the zero GUID is 0. */
  type Guid = bv128

  type ProviderID = Guid
  type LayerID = Guid
  type CalloutID = Guid
  type RuleID = Guid

  /** FWP_FILTER_ENUM_TYPE: a 32-bit value. */
  type FilterEnumType = bv32

  /** FWP_FILTER_ENUM_FLAGS: a 32-bit set of flags. */
  type FilterEnumFlags = bv32

  /** The action-type mask of an enumeration template. */
  type ActionFlag = bv32

  /** An error code returned by the filtering engine, as a Windows errno. */
  type Errno = bv32
}
