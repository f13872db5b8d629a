/**
 Internal ids (include/id_types.h): bit 63 tells update ids from direct ids, which
 are equal to their real id.
 */
module IdTypes {

  const UPDATE_ID_BIT: nat := 0x8000_0000_0000_0000
  const FIRST_UPDATE_ID: nat := UPDATE_ID_BIT
}
