/** The forgiving X error handler `MXError` of grabc.c: a classification of a
    protocol error, by its error code and the major opcode of the request that
    caused it, into "forgive" (the handler returns False) and "do not forgive"
    (it returns True). Codes and opcodes are those of the X Window System
    Protocol, Version 11 (the Errors section and the request encoding). */
module ErrorPolicy {

  /** `XErrorEvent.error_code` and `XErrorEvent.request_code` are unsigned chars. */
  newtype Byte = b: int | 0 <= b < 256

  // Error codes
  const BadValue: Byte := 2
  const BadWindow: Byte := 3
  const BadDrawable: Byte := 9
  const BadAccess: Byte := 10
  const BadAlloc: Byte := 11

  // Major opcodes
  const GetWindowAttributes: Byte := 3
  const GetGeometry: Byte := 14
  const QueryTree: Byte := 15
  const FreeColors: Byte := 88
  const QueryColors: Byte := 91

  /** The (error, request) pairs the handler forgives besides BadAlloc, which
      it forgives for every request. */
  const AllowList: set<(Byte, Byte)> :=
    {(BadAccess, FreeColors), (BadDrawable, GetGeometry), (BadWindow, GetWindowAttributes),
     (BadWindow, QueryTree), (BadValue, QueryColors)}

  predicate Forgiven(errorCode: Byte, requestCode: Byte) {
    errorCode == BadAlloc || (errorCode, requestCode) in AllowList
  }

  /** The value `MXError` returns: `true` is C's True ("do not forgive"). The
      body follows the source's if-then-switch; the contract states the
      allow-list both ways. */
  function MXError(errorCode: Byte, requestCode: Byte): (notForgiven: bool)
    ensures !notForgiven <==> Forgiven(errorCode, requestCode)
  {
    if errorCode == BadAlloc || (errorCode == BadAccess && requestCode == 88) then
      false
    else if requestCode == GetGeometry then
      errorCode != BadDrawable
    else if requestCode == GetWindowAttributes || requestCode == QueryTree then
      errorCode != BadWindow
    else if requestCode == QueryColors then
      errorCode != BadValue
    else
      true
  }

  /** Pairs outside the allow-list are not forgiven: BadAccess on any request
      but FreeColors, BadWindow on GetGeometry, and any error but BadAlloc on a
      request other than 3, 14, 15, 88 and 91. */
  lemma NotForgivenOutsideAllowList(errorCode: Byte, requestCode: Byte)
    ensures errorCode == BadAccess && requestCode != FreeColors ==> MXError(errorCode, requestCode)
    ensures MXError(BadWindow, GetGeometry) && MXError(BadDrawable, QueryTree)
    ensures errorCode != BadAlloc && requestCode !in {GetWindowAttributes, GetGeometry, QueryTree, FreeColors, QueryColors}
            ==> MXError(errorCode, requestCode)
  {
  }
}
