/**
  How metadata names become names of tables and columns.
 */
module StorageNames {
  /** Dashes are not for identifiers. */
  function StorageName(s: string): string {
    if s == "" then "" else [if s[0] == '-' then '_' else s[0]] + StorageName(s[1..])
  }

  lemma {:induction false} StorageNameExact(s: string)
    ensures |StorageName(s)| == |s|
    ensures forall i :: 0 <= i < |s| ==> StorageName(s)[i] == if s[i] == '-' then '_' else s[i]
  {
    if s != "" { StorageNameExact(s[1..]); }
  }

  predicate Blank(s: string) {
    forall c :: c in s ==> c in " \t\n\r"
  }

  function TableName(app: string, name: string): string {
    if app == "core" || Blank(app) then StorageName(name) else StorageName(app + "-" + name)
  }

  lemma StorageNameJoins(a: string, b: string)
    ensures StorageName(a + b) == StorageName(a) + StorageName(b)
  {
    StorageNameExact(a);
    StorageNameExact(b);
    StorageNameExact(a + b);
  }

  /** Entities of the core app, and those of no app, have tables of their own name; others carry their app in front. */
  lemma TableNameExact(app: string, name: string)
    ensures app == "core" || (forall c :: c in app ==> c in {' ', '\t', '\n', '\r'}) ==>
      TableName(app, name) == StorageName(name)
    ensures app != "core" && (exists c :: c in app && c !in {' ', '\t', '\n', '\r'}) ==>
      TableName(app, name) == StorageName(app) + "_" + StorageName(name)
  {
    StorageNameJoins(app, "-");
    StorageNameJoins(app + "-", name);
    assert StorageName("-") == "_";
  }
}
