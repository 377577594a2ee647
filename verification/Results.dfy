/** The result codes of commands. */
module Results {
  const AT_OK: nat := 0
  const AT_ERROR: nat := 4
  const AT_NO_DIALTONE: nat := 6
  const AT_CME_EINVAL: nat := 0x132

  const CME_FIRST: nat := 0x100
  const CME_LAST: nat := 0x1FF
  const CMS_FIRST: nat := 0x200
  const CMS_LAST: nat := 0x3FF
}
