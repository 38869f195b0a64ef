/** What one page of a bucket listing says: the list entries it adds, and how to ask for the next page. */
module ListPage {
  import opened Options
  import opened XmlSpec
  import opened ListPool

  // ---- Comparing names ----

  /** xml_node_name_cmp(node, literal) == 0: strncmp over the length of the node's name. */
  predicate NameIs(name: string, literal: string) {
    if name == "" then true
    else if literal == "" then name[0] == '\0'
    else name[0] == literal[0] && (name[0] == '\0' || NameIs(name[1..], literal[1..]))
  }

  /** The name as a C string: up to its first NUL, if it has one. */
  function UpToNul(name: string): string {
    if name == "" || name[0] == '\0' then "" else [name[0]] + UpToNul(name[1..])
  }

  lemma {:induction false} NoNulIsWhole(name: string)
    requires '\0' !in name
    ensures UpToNul(name) == name
  {
    if name != "" {
      NoNulIsWhole(name[1..]);
    }
  }

  /** It holds exactly when the name is a prefix of the literal; a name with a NUL must spell all of it. */
  lemma {:induction false} NameIsPrefix(name: string, literal: string)
    requires '\0' !in literal
    ensures NameIs(name, literal) <==> if '\0' in name then UpToNul(name) == literal else name <= literal
  {
    if name != "" && literal != "" {
      NameIsPrefix(name[1..], literal[1..]);
      assert name == [name[0]] + name[1..] && literal == [literal[0]] + literal[1..];
    }
  }

  // ---- Reading elements ----

  /** The number and date conversions of the C library. */
  datatype Convert = Convert(size: string -> nat, time: string -> int)

  function TextOf(t: Tree): string {
    match t.content
    case None => ""
    case Some(text) => text
  }

  predicate IsDirectory(key: string) {
    key != "" && key[|key| - 1] == '/'
  }

  /** The variables of the loop over one Contents element. Size and date outlive the element. */
  datatype Fields = Fields(key: Option<string>, skip: bool, size: nat, time: int)

  /** The loop over the children of a Contents element, which stops at a directory key. */
  function ReadFields(kids: seq<Tree>, conv: Convert, f: Fields): (r: Fields)
    decreases |kids|
  {
    if kids == [] then f
    else
      var text := TextOf(kids[0]);
      if NameIs(kids[0].name, "Key") then
        if IsDirectory(text) then f.(skip := true) else ReadFields(kids[1..], conv, f.(key := Some(text)))
      else if NameIs(kids[0].name, "Size") then ReadFields(kids[1..], conv, f.(size := conv.size(text)))
      else if NameIs(kids[0].name, "LastModified") then ReadFields(kids[1..], conv, f.(time := conv.time(text)))
      else ReadFields(kids[1..], conv, f)
  }

  /** What the loop over a Contents element does with the size and date of the elements before it. */
  function FieldsOf(node: Tree, conv: Convert, v: Vars): Fields {
    ReadFields(node.children, conv, Fields(None, false, v.size, v.time))
  }

  /** The variables of the loop over the page. */
  datatype Vars = Vars(token: Option<string>, truncated: bool, lastKey: Option<string>, size: nat, time: int)

  const NO_VARS := Vars(None, false, None, 0, 0)

  datatype ElementKind = Token | Truncated | Contents | Prefixes | Other

  /** The tests of the loop over the page, in their order. */
  function KindOf(node: Tree, version: int): ElementKind {
    if NameIs(node.name, "NextContinuationToken") then Token
    else if version == 1 && NameIs(node.name, "IsTruncated") then Truncated
    else if NameIs(node.name, "Contents") then Contents
    else if NameIs(node.name, "CommonPrefixes") then Prefixes
    else Other
  }

  /** The list entries that one element of the page adds: none or one. */
  function ItemsOf(node: Tree, version: int, conv: Convert, v: Vars): seq<Item> {
    match KindOf(node, version)
    case Contents =>
      var f := FieldsOf(node, conv, v);
      if f.skip || f.key == None then [] else [Item(f.key.value, f.size, f.time)]
    case Prefixes =>
      if node.children != [] && NameIs(node.children[0].name, "Prefix") then
        [Item(TextOf(node.children[0]), 0, 0)]
      else []
    case _ => []
  }

  function VarsAfter(node: Tree, version: int, conv: Convert, v: Vars): Vars {
    match KindOf(node, version)
    case Token => v.(token := Some(TextOf(node)))
    case Truncated => v.(truncated := v.truncated || TextOf(node) == "true")
    case Contents =>
      var f := FieldsOf(node, conv, v);
      Vars(v.token, v.truncated, if version == 1 && !f.skip && f.key.Some? then f.key else v.lastKey, f.size, f.time)
    case _ => v
  }

  /** All the entries of a page, and the variables at its end. */
  datatype Page = Page(items: seq<Item>, vars: Vars)

  function ReadElements(nodes: seq<Tree>, version: int, conv: Convert, v: Vars): Page {
    if nodes == [] then Page([], v)
    else
      var rest := ReadElements(nodes[1..], version, conv, VarsAfter(nodes[0], version, conv, v));
      Page(ItemsOf(nodes[0], version, conv, v) + rest.items, rest.vars)
  }

  /** What the next request has to continue from: the token, or in version 1 the last key of a truncated page. */
  function Continuation(v: Vars, version: int): Option<string> {
    if version == 1 && v.truncated && v.lastKey.Some? then v.lastKey else v.token
  }

  // ---- Pages that the code can read ----

  predicate GoodString(t: Tree) {
    t.content.Some? && t.content.value != "" && '\0' !in t.content.value
  }

  /** How many children would be taken for the key. */
  function KeyCount(kids: seq<Tree>): nat {
    if kids == [] then 0 else (if NameIs(kids[0].name, "Key") then 1 else 0) + KeyCount(kids[1..])
  }

  /** An object has one key; key, size and date are not empty. */
  predicate GoodContents(node: Tree) {
    && node.children != [] && KeyCount(node.children) == 1
    && forall i :: 0 <= i < |node.children| ==>
         var name := node.children[i].name;
         NameIs(name, "Key") || NameIs(name, "Size") || NameIs(name, "LastModified") ==> GoodString(node.children[i])
  }

  predicate GoodElement(node: Tree, version: int) {
    match KindOf(node, version)
    case Token => GoodString(node)
    case Truncated => GoodString(node)
    case Contents => GoodContents(node)
    case Prefixes => node.children != [] && (NameIs(node.children[0].name, "Prefix") ==> GoodString(node.children[0]))
    case Other => true
  }

  /** The pages the code relies on: nothing it dereferences is missing. */
  predicate GoodPage(root: Tree, version: int) {
    root.children != [] && forall i :: 0 <= i < |root.children| ==> GoodElement(root.children[i], version)
  }

  /** Everything a page says. */
  function PageOf(root: Tree, version: int, conv: Convert): Page {
    ReadElements(root.children, version, conv, NO_VARS)
  }

  /** One key: it is either a directory's or stored. */
  lemma {:induction false} OneKey(kids: seq<Tree>, conv: Convert, f: Fields)
    requires KeyCount(kids) + (if f.key == None then 0 else 1) == 1 && !f.skip
    ensures var r := ReadFields(kids, conv, f); !r.skip ==> r.key.Some?
    decreases |kids|
  {
    if kids != [] {
      var text := TextOf(kids[0]);
      if NameIs(kids[0].name, "Key") {
        if !IsDirectory(text) {
          OneKey(kids[1..], conv, f.(key := Some(text)));
        }
      } else if NameIs(kids[0].name, "Size") {
        OneKey(kids[1..], conv, f.(size := conv.size(text)));
      } else if NameIs(kids[0].name, "LastModified") {
        OneKey(kids[1..], conv, f.(time := conv.time(text)));
      } else {
        OneKey(kids[1..], conv, f);
      }
    }
  }
}
