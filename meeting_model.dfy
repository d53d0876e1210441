/** The stored meeting record: an identity and three independently optional
    string attributes, plus the `unwrappedName` sort key. */
module Meeting {
  import opened StringOrder

  datatype Option<T> = None | Some(value: T)

  /** One stored meeting. `id` stands for the object identity the database
      gives every managed object; two records are the same meeting exactly
      when their ids agree. */
  datatype Record = Record(id: nat, name: Option<string>, date: Option<string>, purpose: Option<string>)

  /** Optional text read as plain text, absent text being the empty string. */
  function OrEmpty(text: Option<string>): (s: string)
    ensures text == Some(s) || (text == None && s == "")
  {
    match text
    case Some(v) => v
    case None => ""
  }

  /** The key records are sorted by: the stored name, or "" when there is none. */
  function UnwrappedName(r: Record): (key: string)
    ensures r.name == Some(key) || (r.name == None && key == "")
  {
    OrEmpty(r.name)
  }

  /** A nameless record sorts with the same key as one named "": neither
      comes strictly before the other. */
  lemma NamelessSortsAsEmpty(nameless: Record, empty: Record)
    requires nameless.name == None && empty.name == Some("")
    ensures UnwrappedName(nameless) == UnwrappedName(empty)
    ensures !Less(UnwrappedName(nameless), UnwrappedName(empty))
    ensures !Less(UnwrappedName(empty), UnwrappedName(nameless))
  {
    LessIrreflexive("");
  }
}
