/** parse_list_response: a parsed page appended to the result list. */
module ListResponse {
  import opened Options
  import opened XmlSpec
  import opened XmlParser
  import opened ListPool
  import opened ListPage
  import opened Errors

  /** The loop over the children of a Contents element. */
  method ReadContents(node: Tree, conv: Convert, size0: nat, time0: int)
    returns (filename: CString?, skip: bool, size: nat, time: int)
    requires GoodContents(node)
    ensures var f := ReadFields(node.children, conv, Fields(None, false, size0, time0));
            && skip == f.skip && size == f.size && time == f.time
            && (!skip ==> filename != null && fresh(filename) && f.key == Some(filename.text))
  {
    filename, skip, size, time := null, false, size0, time0;
    var childIt := 0;
    ghost var kids := node.children;
    while childIt < |node.children|
      invariant childIt <= |kids| && !skip && (filename != null ==> fresh(filename))
      invariant ReadFields(kids, conv, Fields(None, false, size0, time0)) ==
                ReadFields(kids[childIt..], conv,
                           Fields(if filename == null then None else Some(filename.text), false, size, time))
      invariant KeyCount(kids[childIt..]) + (if filename == null then 0 else 1) == 1
    {
      var child := node.children[childIt];
      assert kids[childIt..][1..] == kids[childIt + 1..];
      if NameIs(child.name, "Key") {
        filename := new CString(TextOf(child));
        if filename.text[|filename.text| - 1] == '/' {
          skip := true;
          break;
        }
      } else if NameIs(child.name, "Size") {
        size := conv.size(TextOf(child));
      } else if NameIs(child.name, "LastModified") {
        time := conv.time(TextOf(child));
      }
      childIt := childIt + 1;
    }
  }

  /** One element of the page: the list grows by its entry, and its new tail is returned. */
  method ReadNode(list: Container, lastptr: Ptr, node: Tree, version: int, conv: Convert, vars: Vars)
    returns (tail: Ptr, next: Vars)
    requires list.Valid() && lastptr == list.next && GoodElement(node, version)
    modifies list.Footprint()
    ensures list.Valid() && tail == list.next && fresh(list.Footprint() - old(list.Footprint()))
    ensures next == VarsAfter(node, version, conv, vars)
    ensures list.items == old(list.items) + ItemsOf(node, version, conv, vars)
  {
    hide Container.Valid, ReadFields, GoodContents, NameIs;
    tail, next := lastptr, vars;
    if NameIs(node.name, "NextContinuationToken") {
      next := vars.(token := Some(TextOf(node)));
      return;
    }
    if version == 1 {
      if NameIs(node.name, "IsTruncated") {
        if TextOf(node) == "true" {
          next := vars.(truncated := true);
        }
        return;
      }
    }
    if NameIs(node.name, "Contents") {
      ContentsKey(node, conv, vars);
      var filename, skip, size, time := ReadContents(node, conv, vars.size, vars.time);
      next := vars.(size := size, time := time);
      if !skip {
        tail := list.Append(lastptr, filename, size, time);
        if version == 1 {
          next := next.(lastKey := Some(filename.text));
        }
      }
      return;
    }
    if NameIs(node.name, "CommonPrefixes") {
      var child := node.children[0];
      if NameIs(child.name, "Prefix") {
        var filename := new CString(TextOf(child));
        tail := list.Append(lastptr, filename, 0, 0);
      }
    }
  }

  lemma ContentsKey(node: Tree, conv: Convert, vars: Vars)
    requires GoodContents(node)
    ensures var f := FieldsOf(node, conv, vars); !f.skip ==> f.key.Some?
  {
    OneKey(node.children, conv, Fields(None, false, vars.size, vars.time));
  }

  /** parse_list_response. */
  method ParseListResponse(data: array<char>, length: nat, list: Container, version: int, conv: Convert)
    returns (rc: int, continuation: Option<string>)
    requires length <= data.Length && (length > 0 ==> length < data.Length && data[length] == '\0')
    requires list.Valid()
    requires ParseDocument(data[..length]).Some? ==>
               GoodPage(View(data[..length], ParseDocument(data[..length]).value), version)
    modifies list.Footprint()
    ensures list.Valid() && fresh(list.Footprint() - old(list.Footprint()))
    ensures match old(ParseDocument(data[..length]))
            case None =>
              && rc == (if length == 0 then MS3_ERR_NONE else MS3_ERR_RESPONSE_PARSE)
              && continuation == None && list.items == old(list.items)
            case Some(root) =>
              var page := PageOf(View(old(data[..length]), root), version, conv);
              && rc == MS3_ERR_NONE && continuation == Continuation(page.vars, version)
              && list.items == old(list.items) + page.items
  {
    hide Container.Valid, ParseDocument, View, NodeInBounds, GoodElement, VarsAfter, ItemsOf;
    if length == 0 {
      ParseNothing(data[..length]);
      return MS3_ERR_NONE, None;
    }
    var lastptr := list.next;
    var doc := ParseBuffer(data, length);
    if doc == None {
      return MS3_ERR_RESPONSE_PARSE, None;
    }
    var root := View(data[..length], doc.value);
    var vars := NO_VARS;
    var nodeIt := 0;
    ghost var start := list.items;
    while nodeIt < |root.children|
      invariant nodeIt <= |root.children| && list.Valid() && lastptr == list.next
      invariant fresh(list.Footprint() - old(list.Footprint()))
      invariant start + PageOf(root, version, conv).items ==
                list.items + ReadElements(root.children[nodeIt..], version, conv, vars).items
      invariant PageOf(root, version, conv).vars == ReadElements(root.children[nodeIt..], version, conv, vars).vars
    {
      assert root.children[nodeIt..][1..] == root.children[nodeIt + 1..];
      lastptr, vars := ReadNode(list, lastptr, root.children[nodeIt], version, conv, vars);
      nodeIt := nodeIt + 1;
    }
    return MS3_ERR_NONE, Continuation(vars, version);
  }

  lemma ParseNothing(s: string)
    requires s == ""
    ensures ParseDocument(s) == None
  {
  }
}
