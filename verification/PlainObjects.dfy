/** Keys of a plain JavaScript object that serves as a dictionary. */
module PlainObjects {
  import opened Strings

  const INHERITED: seq<string> := [
    "constructor", "toString", "toLocaleString", "valueOf", "hasOwnProperty", "isPrototypeOf",
    "propertyIsEnumerable", "__proto__", "__defineGetter__", "__defineSetter__", "__lookupGetter__",
    "__lookupSetter__"
  ]

  /** Looking the key up in an object without it finds a property of the object prototype. */
  predicate Inherited(key: string) {
    key in INHERITED
  }

  /** Not inherited, and not an integer, which would be enumerated before other keys. */
  predicate Ordinary(key: string) {
    !Inherited(key) && !(key != "" && AllDigits(key))
  }
}
