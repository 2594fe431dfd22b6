/** Calls on the store in sequence, and what the store's contracts let a
    caller conclude about them. */
module Scenarios {
  import opened KeySets
  import opened Json
  import opened DocumentStore

  /** `set` then `get` of a truthy value: the get line shows the value just set. */
  method SetThenGet(s: Store, file: string, key: Key, value: Value, t1: int, t2: int)
    requires s.Valid() && ReadDoc(s.files, file).Ok?
    requires Truthy(value)
    modifies s
    ensures s.Valid()
    ensures s.log == old(s.log) + [
      Line("Set " + key + " on " + file + " -> " + Show(value), t1),
      Line("Get " + key + " on " + file + " -> " + Show(value), t2)]
  {
    s.Set(file, key, value, t1);
    s.Get(file, key, t2);
  }

  /** `set` then `get` of a falsy value: the value is stored, yet `get`
      reports the key as invalid. */
  method SetFalsyThenGet(s: Store, file: string, key: Key, value: Value, t1: int, t2: int)
    requires s.Valid() && ReadDoc(s.files, file).Ok?
    requires !Truthy(value)
    modifies s
    ensures s.Valid()
    ensures ReadDoc(s.files, file).Ok? && key in ReadDoc(s.files, file).value.vals
    ensures ReadDoc(s.files, file).value.vals[key] == value
    ensures s.log == old(s.log) + [
      Line("Set " + key + " on " + file + " -> " + Show(value), t1),
      Line("Error " + key + " invalid on " + file, t2)]
  {
    s.Set(file, key, value, t1);
    s.Get(file, key, t2);
  }

  /** `remove` then `get`: the key is gone and `get` reports it as invalid. */
  method RemoveThenGet(s: Store, file: string, key: Key, t1: int, t2: int)
    requires s.Valid() && ReadDoc(s.files, file).Ok?
    modifies s
    ensures s.Valid()
    ensures ReadDoc(s.files, file).Ok? && key !in ReadDoc(s.files, file).value.vals
    ensures s.log == old(s.log) + [
      Line("Remove " + key + " on " + file, t1),
      Line("Error " + key + " invalid on " + file, t2)]
  {
    s.Remove(file, key, t1);
    s.Get(file, key, t2);
  }

  /** `createFile` twice on an absent file: the file holds `{}`, and the log
      gains one creation line and one refusal. */
  method CreateTwice(s: Store, file: string, t1: int, t2: int)
    requires s.Valid() && file !in s.files
    modifies s
    ensures s.Valid()
    ensures s.files == old(s.files)[file := Doc(EmptyObj())]
    ensures s.log == old(s.log) + [
      Line("CreateFile " + file, t1),
      Line("CreateFile DENIED: " + file + " already exists", t2)]
  {
    s.CreateFile(file, t1);
    s.CreateFile(file, t2);
  }

  /** `deleteFile` twice: the file is absent, the other files are untouched
      and nothing is logged. */
  method DeleteTwice(s: Store, file: string)
    requires s.Valid()
    modifies s
    ensures s.Valid()
    ensures s.files == old(s.files) - {file}
    ensures s.log == old(s.log)
  {
    s.DeleteFile(file);
    s.DeleteFile(file);
  }
}
