/** What every plain object answers to besides its own keys. */
module PlainObjects {
  /** Names a plain object inherits. */
  const INHERITED := {
    "constructor", "toString", "toLocaleString", "valueOf", "hasOwnProperty", "isPrototypeOf",
    "propertyIsEnumerable", "__defineGetter__", "__defineSetter__", "__lookupGetter__", "__lookupSetter__", "__proto__"
  }
}
