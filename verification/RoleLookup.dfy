/** Looking up a role's ARN in the paged list of roles. */
module RoleLookup {
  import opened Options
  import opened Errors
  import opened XmlSpec
  import opened XmlParser
  import opened XmlRoundTrip
  import opened MarkupText
  import opened TextElements
  import opened ListPage
  import opened Listing

  // ---- What the pages say ----

  datatype RoleField = RoleName | Arn | NoField

  /** The tests of the loop over a role, in their order. */
  function FieldOf(t: Tree): RoleField {
    if NameIs(t.name, "RoleName") then RoleName else if NameIs(t.name, "Arn") then Arn else NoField
  }

  /** The text of the last child of a kind. */
  function LastField(kids: seq<Tree>, field: RoleField, found: Option<string>): Option<string> {
    if kids == [] then found
    else LastField(kids[1..], field, if FieldOf(kids[0]) == field then Some(TextOf(kids[0])) else found)
  }

  function NameOfRole(role: Tree): Option<string> {
    LastField(role.children, RoleName, None)
  }

  function ArnOfRole(role: Tree): Option<string> {
    LastField(role.children, Arn, None)
  }

  /** The ARN of the first role with the given name. */
  function FirstArn(roles: seq<Tree>, name: string): Option<string> {
    if roles == [] then None
    else if NameOfRole(roles[0]) == Some(name) then ArnOfRole(roles[0])
    else FirstArn(roles[1..], name)
  }

  /** The elements of a page: the children of the root's first child. */
  function PageElements(root: Tree): seq<Tree> {
    if root.children == [] then [] else root.children[0].children
  }

  datatype PageField = Marker | Roles | OtherField

  function KindOf(t: Tree): PageField {
    if NameIs(t.name, "Marker") then Marker else if NameIs(t.name, "Roles") then Roles else OtherField
  }

  /** All roles of a page, in order. */
  function RolesOf(elements: seq<Tree>): seq<Tree> {
    if elements == [] then []
    else (if KindOf(elements[0]) == Roles then elements[0].children else []) + RolesOf(elements[1..])
  }

  /** From where the next page continues. */
  function MarkerOf(elements: seq<Tree>, found: Option<string>): Option<string> {
    if elements == [] then found
    else MarkerOf(elements[1..], if KindOf(elements[0]) == Marker then Some(TextOf(elements[0])) else found)
  }

  /** A role has a name and an ARN. */
  predicate GoodRole(role: Tree) {
    && NameOfRole(role).Some? && ArnOfRole(role).Some?
    && forall i :: 0 <= i < |role.children| && FieldOf(role.children[i]) != NoField ==> GoodString(role.children[i])
  }

  predicate GoodElement(e: Tree) {
    match KindOf(e)
    case Marker => GoodString(e)
    case Roles => e.children != [] && forall j :: 0 <= j < |e.children| ==> GoodRole(e.children[j])
    case OtherField => true
  }

  /** The pages the code relies on: nothing it dereferences is missing. */
  predicate GoodRolePage(root: Tree) {
    && PageElements(root) != []
    && forall i :: 0 <= i < |PageElements(root)| ==> GoodElement(PageElements(root)[i])
  }

  lemma {:induction false} FirstArnAppend(a: seq<Tree>, b: seq<Tree>, name: string)
    requires forall i :: 0 <= i < |a| ==> GoodRole(a[i])
    ensures FirstArn(a + b, name) == if FirstArn(a, name).Some? then FirstArn(a, name) else FirstArn(b, name)
  {
    hide NameOfRole, ArnOfRole;
    if a == [] {
      assert a + b == b;
    } else {
      assert (a + b)[1..] == a[1..] + b;
      assert GoodRole(a[0]);
      FirstArnAppend(a[1..], b, name);
    }
  }

  // ---- parse_role_list_response ----

  /** The loop over the fields of one role. */
  method ReadRole(role: Tree) returns (name: string, arn: string)
    requires GoodRole(role)
    ensures NameOfRole(role) == Some(name) && ArnOfRole(role) == Some(arn)
  {
    hide NameIs;
    var n: Option<string>, a: Option<string> := None, None;
    var it := 0;
    while it < |role.children|
      invariant it <= |role.children|
      invariant NameOfRole(role) == LastField(role.children[it..], RoleName, n)
      invariant ArnOfRole(role) == LastField(role.children[it..], Arn, a)
    {
      var member := role.children[it];
      if NameIs(member.name, "RoleName") {
        n := Some(TextOf(member));
      } else if NameIs(member.name, "Arn") {
        a := Some(TextOf(member));
      }
      it := it + 1;
    }
    return n.value, a.value;
  }

  /** The loop over the roles of a Roles element. */
  method SearchRoles(roles: seq<Tree>, name: string) returns (arn: Option<string>)
    requires forall j :: 0 <= j < |roles| ==> GoodRole(roles[j])
    ensures arn == FirstArn(roles, name)
  {
    hide NameOfRole, ArnOfRole;
    var it := 0;
    while it < |roles|
      invariant it <= |roles| && FirstArn(roles, name) == FirstArn(roles[it..], name)
    {
      var responseName, responseArn := ReadRole(roles[it]);
      if responseName == name {
        return Some(responseArn);
      }
      it := it + 1;
    }
    return None;
  }

  /** The result code, the ARN if one is stored, and the marker. */
  datatype RoleResult = RoleResult(rc: int, arn: Option<string>, marker: Option<string>)

  /** What parse_role_list_response makes of a body. An empty body counts as success, although nothing is found. */
  function BodyResult(body: string, name: string): RoleResult {
    if body == "" then RoleResult(MS3_ERR_NONE, None, None)
    else
      match ParseDocument(body)
      case None => RoleResult(MS3_ERR_RESPONSE_PARSE, None, None)
      case Some(root) =>
        var elements := PageElements(View(body, root));
        var arn := FirstArn(RolesOf(elements), name);
        RoleResult(if arn.Some? then MS3_ERR_NONE else MS3_ERR_NOT_FOUND, arn, MarkerOf(elements, None))
  }

  predicate GoodRoleBody(body: string) {
    ParseDocument(body).Some? ==> GoodRolePage(View(body, ParseDocument(body).value))
  }

  /** The loop over the elements of the page, which the first match leaves. */
  method SearchPage(elements: seq<Tree>, name: string) returns (arn: Option<string>, marker: Option<string>)
    requires forall i :: 0 <= i < |elements| ==> GoodElement(elements[i])
    ensures arn == FirstArn(RolesOf(elements), name)
    ensures arn == None ==> marker == MarkerOf(elements, None)
  {
    hide NameIs, FirstArn, GoodRole;
    marker := None;
    var it := 0;
    while it < |elements|
      invariant it <= |elements|
      invariant FirstArn(RolesOf(elements), name) == FirstArn(RolesOf(elements[it..]), name)
      invariant MarkerOf(elements, None) == MarkerOf(elements[it..], marker)
    {
      var child := elements[it];
      assert elements[it..][1..] == elements[it + 1..];
      if NameIs(child.name, "Marker") {
        marker := Some(TextOf(child));
        assert [] + RolesOf(elements[it + 1..]) == RolesOf(elements[it + 1..]);
      } else if NameIs(child.name, "Roles") {
        arn := SearchRoles(child.children, name);
        FirstArnAppend(child.children, RolesOf(elements[it + 1..]), name);
        if arn.Some? {
          return arn, marker;
        }
      } else {
        assert [] + RolesOf(elements[it + 1..]) == RolesOf(elements[it + 1..]);
      }
      it := it + 1;
    }
    arn := None;
    NoRoles(elements[it..], name);
  }

  lemma NoRoles(elements: seq<Tree>, name: string)
    requires elements == []
    ensures FirstArn(RolesOf(elements), name) == None
  {
  }

  /** parse_role_list_response. */
  method ParseRoleList(data: array<char>, length: nat, name: string)
    returns (rc: int, arn: Option<string>, continuation: Option<string>)
    requires length <= data.Length && (length > 0 ==> length < data.Length && data[length] == '\0')
    requires GoodRoleBody(data[..length])
    ensures var r := BodyResult(data[..length], name);
            rc == r.rc && arn == r.arn && (arn == None ==> continuation == r.marker)
  {
    hide ParseDocument, View, NodeInBounds, GoodElement, FirstArn, RolesOf, MarkerOf;
    if length == 0 {
      return MS3_ERR_NONE, None, None;
    }
    var doc := ParseBuffer(data, length);
    if doc == None {
      return MS3_ERR_RESPONSE_PARSE, None, None;
    }
    arn, continuation := SearchPage(PageElements(View(data[..length], doc.value)), name);
    rc := if arn.Some? then MS3_ERR_NONE else MS3_ERR_NOT_FOUND;
  }

  // ---- The pages of a lookup ----

  /** The outcome of a request on its own. The response code plays no part: the body's result replaces it. */
  function ReplyResult(reply: Reply, name: string): RoleResult {
    match reply
    case NotSent(err) => RoleResult(err, None, None)
    case CurlError => RoleResult(MS3_ERR_REQUEST_ERROR, None, None)
    case Http(_, body) => BodyResult(body, name)
  }

  predicate GoodReply(reply: Reply) {
    match reply
    case NotSent(err) => err != MS3_ERR_NONE
    case CurlError => true
    case Http(_, body) => GoodRoleBody(body)
  }

  /** There is another request if the role has not been found and there is a marker. */
  function AsksFor(reply: Reply, name: string): Option<string> {
    var r := ReplyResult(reply, name);
    if r.rc != MS3_ERR_NONE then r.marker else None
  }

  /** From the i-th request on there are at most n requests, and every page can be read. */
  ghost predicate EndsWithin(server: Server, i: nat, cont: Option<string>, name: string, n: nat)
    decreases n
  {
    && n > 0 && GoodReply(server(i, cont))
    && var next := AsksFor(server(i, cont), name);
       next.Some? ==> EndsWithin(server, i + 1, next, name, n - 1)
  }

  /** The last reply of a run. */
  ghost function LastReply(server: Server, i: nat, cont: Option<string>, name: string, n: nat): Reply
    requires EndsWithin(server, i, cont, name, n)
    decreases n
  {
    hide AsksFor, GoodReply;
    var next := AsksFor(server(i, cont), name);
    if next == None then server(i, cont) else LastReply(server, i + 1, next, name, n - 1)
  }

  /** The result of a lookup says what became of its last request. */
  ghost predicate Reports(res: int, arn: Option<string>, reply: Reply) {
    match reply
    case NotSent(err) => res == err && arn == None
    case CurlError => res == MS3_ERR_REQUEST_ERROR && arn == None
    case Http(_, body) =>
      if body == "" then res == MS3_ERR_NONE && arn == None
      else if ParseDocument(body) == None then res == MS3_ERR_RESPONSE_PARSE && arn == None
      else res == if arn.Some? then MS3_ERR_NONE else MS3_ERR_NOT_FOUND
  }

  lemma ResultReports(reply: Reply, name: string)
    ensures var r := ReplyResult(reply, name); Reports(r.rc, r.arn, reply)
  {
    hide ParseDocument, View, NodeInBounds, FirstArn, RolesOf, MarkerOf;
  }

  /** The LIST_ROLE case of execute_assume_role_request: the last page of the run decides. */
  method ExecuteListRole(server: Server, i: nat, cont: Option<string>, name: string, ghost n: nat)
    returns (res: int, arn: Option<string>)
    requires EndsWithin(server, i, cont, name, n)
    ensures var r := ReplyResult(LastReply(server, i, cont, name, n), name); res == r.rc && arn == r.arn
    ensures Reports(res, arn, LastReply(server, i, cont, name, n))
    decreases n
  {
    ResultReports(server(i, cont), name);
    hide BodyResult, GoodRoleBody, Reports;
    var reply := server(i, cont);
    match reply
    case NotSent(err) => return err, None;
    case CurlError => return MS3_ERR_REQUEST_ERROR, None;
    case Http(_, body) =>
      var data := new char[|body| + 1](k => if 0 <= k < |body| then body[k] else '\0');
      assert data[..|body|] == body;
      var next;
      res, arn, next := ParseRoleList(data, |body|, name);
      FoundIsSuccess(body, name);
      if next.Some? && res != MS3_ERR_NONE {
        res, arn := ExecuteListRole(server, i + 1, next, name, n - 1);
      }
  }

  lemma FoundIsSuccess(body: string, name: string)
    ensures BodyResult(body, name).arn.Some? ==> BodyResult(body, name).rc == MS3_ERR_NONE
  {
  }

  /** Success means that an ARN has been stored, unless a page with an empty body ended the search. */
  lemma {:induction false} SuccessMeansFound(server: Server, i: nat, cont: Option<string>, name: string, n: nat)
    requires EndsWithin(server, i, cont, name, n)
    ensures var reply := LastReply(server, i, cont, name, n); var r := ReplyResult(reply, name);
            r.rc == MS3_ERR_NONE <==> r.arn.Some? || (reply.Http? && reply.body == "")
    decreases n
  {
    hide ParseDocument, View, NodeInBounds, FirstArn, RolesOf, MarkerOf;
    var next := AsksFor(server(i, cont), name);
    if next.Some? {
      SuccessMeansFound(server, i + 1, next, name, n - 1);
    }
  }

  // ---- Pages linked by markers ----

  /** The server's replies carry the given pages, each naming the next one by its marker. */
  ghost predicate Linked(server: Server, i: nat, cont: Option<string>, pages: seq<Tree>)
    decreases |pages|
  {
    && pages != [] && CarriesPage(server(i, cont), pages[0])
    && var marker := MarkerOf(PageElements(pages[0]), None);
       if |pages| == 1 then marker == None
       else marker.Some? && Linked(server, i + 1, marker, pages[1..])
  }

  ghost predicate CarriesPage(reply: Reply, page: Tree) {
    && reply.Http? && reply.body != "" && ParseDocument(reply.body).Some?
    && View(reply.body, ParseDocument(reply.body).value) == page && GoodRolePage(page)
  }

  function AllRoles(pages: seq<Tree>): seq<Tree> {
    if pages == [] then [] else RolesOf(PageElements(pages[0])) + AllRoles(pages[1..])
  }

  lemma PageResult(reply: Reply, page: Tree, name: string)
    requires CarriesPage(reply, page)
    ensures GoodReply(reply)
    ensures var arn := FirstArn(RolesOf(PageElements(page)), name);
            ReplyResult(reply, name) ==
            RoleResult(if arn.Some? then MS3_ERR_NONE else MS3_ERR_NOT_FOUND, arn, MarkerOf(PageElements(page), None))
  {
    hide FirstArn, RolesOf, MarkerOf, ParseDocument, View, NodeInBounds;
  }

  lemma {:induction false} RolesAreGood(elements: seq<Tree>)
    requires forall i :: 0 <= i < |elements| ==> GoodElement(elements[i])
    ensures forall j :: 0 <= j < |RolesOf(elements)| ==> GoodRole(RolesOf(elements)[j])
  {
    hide GoodRole;
    if elements != [] {
      RolesAreGood(elements[1..]);
    }
  }

  /**
   * The lookup over a chain of pages: the ARN is that of the first role with the name, in the order of the
   * pages, and the result is MS3_ERR_NOT_FOUND exactly when there is none.
   */
  lemma {:induction false} FirstInPageOrder(server: Server, i: nat, cont: Option<string>, name: string, pages: seq<Tree>)
    requires Linked(server, i, cont, pages)
    ensures EndsWithin(server, i, cont, name, |pages|)
    ensures var r := ReplyResult(LastReply(server, i, cont, name, |pages|), name);
            && r.arn == FirstArn(AllRoles(pages), name)
            && r.rc == if r.arn.Some? then MS3_ERR_NONE else MS3_ERR_NOT_FOUND
    decreases |pages|
  {
    hide CarriesPage, GoodReply, ReplyResult, FirstArn, RolesOf, MarkerOf, PageElements;
    var page := pages[0];
    var elements := PageElements(page);
    PageResult(server(i, cont), page, name);
    PageRoles(server(i, cont), page);
    FirstArnAppend(RolesOf(elements), AllRoles(pages[1..]), name);
    if |pages| > 1 {
      FirstInPageOrder(server, i + 1, MarkerOf(elements, None), name, pages[1..]);
    } else {
      NothingFound(AllRoles(pages[1..]), name);
    }
  }

  lemma PageRoles(reply: Reply, page: Tree)
    requires CarriesPage(reply, page)
    ensures forall j :: 0 <= j < |RolesOf(PageElements(page))| ==> GoodRole(RolesOf(PageElements(page))[j])
  {
    RolesAreGood(PageElements(page));
  }

  lemma NothingFound(roles: seq<Tree>, name: string)
    requires roles == []
    ensures FirstArn(roles, name) == None
  {
  }

  // ---- Printed pages ----

  /** Every printed page can be a page of a lookup, unless it has whitespace before a `>`. */
  lemma PrintedPage(d: Document, code: int)
    requires GoodDocument(d) && Snug(d.root) && GoodRolePage(Erase(d.root))
    ensures CarriesPage(Http(code, PrintDocument(d)), Erase(d.root))
  {
    hide GoodDocument, Snug, PrintDocument, ParseDocument, View, Erase, GoodRolePage, NodeInBounds;
    RootPlaced(d);
    ParsePrint(d);
  }

  function ParentElem(name: string, kid: Elem): Elem {
    Group("", name, "", "", [kid], "", "")
  }

  function RoleElem(name: string, arn: string): Elem {
    Group("", "member", "", "", [TextElem("RoleName", name), TextElem("Arn", arn)], "", "")
  }

  /** A page with one role. */
  function OneRolePage(name: string, arn: string): Document {
    Document(NoHeader, ParentElem("ListRolesResponse", ParentElem("ListRolesResult",
                         ParentElem("Roles", RoleElem(name, arn)))), "")
  }

  function RoleTree(name: string, arn: string): Tree {
    Tree("member", None, [Tree("RoleName", Some(name), []), Tree("Arn", Some(arn), [])])
  }

  function OneRoleTree(name: string, arn: string): Tree {
    Tree("ListRolesResponse", None, [Tree("ListRolesResult", None, [Tree("Roles", None, [RoleTree(name, arn)])])])
  }

  lemma RolePageNames()
    ensures GoodOpen("ListRolesResponse", "") && GoodOpen("ListRolesResult", "") && GoodOpen("Roles", "")
    ensures GoodOpen("member", "") && GoodOpen("RoleName", "") && GoodOpen("Arn", "")
  {
    OpenWithoutAttributes("ListRolesResponse");
    OpenWithoutAttributes("ListRolesResult");
    OpenWithoutAttributes("Roles");
    OpenWithoutAttributes("member");
    OpenWithoutAttributes("RoleName");
    OpenWithoutAttributes("Arn");
    hide GoodOpen;
  }

  lemma ParentGood(name: string, kid: Elem)
    requires GoodOpen(name, "") && Good(kid) && Snug(kid) && LastPad(kid) == ""
    ensures Good(ParentElem(name, kid)) && Snug(ParentElem(name, kid)) && LastPad(ParentElem(name, kid)) == ""
    ensures Erase(ParentElem(name, kid)) == Tree(name, None, [Erase(kid)])
  {
    OneElem(kid);
    hide AllGood, AllSnug, EraseAll, GoodOpen;
  }

  lemma PairGood(name: string, a: Elem, b: Elem)
    requires GoodOpen(name, "") && Good(a) && Snug(a) && LastPad(a) == "" && Good(b) && Snug(b) && LastPad(b) == ""
    ensures var e := Group("", name, "", "", [a, b], "", "");
            Good(e) && Snug(e) && LastPad(e) == "" && Erase(e) == Tree(name, None, [Erase(a), Erase(b)])
  {
    TwoElems(a, b);
    assert [a] + [b] == [a, b];
    hide AllGood, AllSnug, EraseAll, GoodOpen;
  }

  lemma RoleElemGood(name: string, arn: string)
    requires GoodValue(name) && GoodValue(arn)
    ensures var e := RoleElem(name, arn);
            Good(e) && Snug(e) && LastPad(e) == "" && Erase(e) == RoleTree(name, arn)
  {
    RolePageNames();
    hide GoodOpen, Shown, Plain, TextElem, Good, Snug, LastPad, Erase;
    PlainShown(name);
    PlainShown(arn);
    TextElemGood("RoleName", name);
    TextElemGood("Arn", arn);
    PairGood("member", TextElem("RoleName", name), TextElem("Arn", arn));
  }

  lemma OneRolePrinted(name: string, arn: string)
    requires GoodValue(name) && GoodValue(arn)
    ensures var d := OneRolePage(name, arn);
            GoodDocument(d) && Snug(d.root) && Erase(d.root) == OneRoleTree(name, arn)
  {
    RolePageNames();
    RoleElemGood(name, arn);
    hide GoodOpen, GoodValue, Good, Snug, LastPad, Erase, RoleElem, RoleTree, ParentElem;
    var roles := ParentElem("Roles", RoleElem(name, arn));
    ParentGood("Roles", RoleElem(name, arn));
    ParentGood("ListRolesResult", roles);
    ParentGood("ListRolesResponse", ParentElem("ListRolesResult", roles));
    RootName("ListRolesResponse", ParentElem("ListRolesResult", roles));
  }

  lemma RootName(name: string, kid: Elem)
    ensures ParentElem(name, kid).name == name
  {}

  lemma RoleNames(text: string)
    ensures FieldOf(Tree("RoleName", Some(text), [])) == RoleName && FieldOf(Tree("Arn", Some(text), [])) == Arn
    ensures KindOf(Tree("Roles", None, [])) == Roles
  {
    NameIsPrefix("RoleName", "RoleName");
    NameIsPrefix("Arn", "Arn");
    NameIsPrefix("Roles", "Roles");
    assert !NameIs("Arn", "RoleName") && !NameIs("Roles", "Marker");
  }

  lemma OneRoleRead(name: string, arn: string)
    requires GoodValue(name) && GoodValue(arn)
    ensures GoodRole(RoleTree(name, arn))
    ensures NameOfRole(RoleTree(name, arn)) == Some(name) && ArnOfRole(RoleTree(name, arn)) == Some(arn)
  {
    RoleNames(name);
    RoleNames(arn);
    hide FieldOf;
    var a, b := Tree("RoleName", Some(name), []), Tree("Arn", Some(arn), []);
    FieldOfTwo(a, b, RoleName);
    FieldOfTwo(a, b, Arn);
    hide LastField;
    assert GoodString(a) && GoodString(b);
  }

  lemma FieldOfTwo(a: Tree, b: Tree, field: RoleField)
    ensures LastField([a, b], field, None) ==
            if FieldOf(b) == field then Some(TextOf(b)) else if FieldOf(a) == field then Some(TextOf(a)) else None
  {
    hide FieldOf, TextOf, LastField;
    var first := if FieldOf(a) == field then Some(TextOf(a)) else None;
    FieldFirst(a, [b], field, None);
    FieldFirst(b, [], field, first);
    NoneLeft(field, if FieldOf(b) == field then Some(TextOf(b)) else first);
    assert [a] + [b] == [a, b] && [b] + [] == [b];
  }

  lemma FieldFirst(t: Tree, rest: seq<Tree>, field: RoleField, found: Option<string>)
    ensures LastField([t] + rest, field, found) ==
            LastField(rest, field, if FieldOf(t) == field then Some(TextOf(t)) else found)
  {
    hide FieldOf, TextOf;
    assert ([t] + rest)[1..] == rest;
  }

  lemma NoneLeft(field: RoleField, found: Option<string>)
    ensures LastField([], field, found) == found
  {}

  lemma KindByName(t: Tree, u: Tree)
    requires t.name == u.name
    ensures KindOf(t) == KindOf(u)
  {}

  lemma OneRolePageRead(name: string, arn: string)
    requires GoodValue(name) && GoodValue(arn)
    ensures var page := OneRoleTree(name, arn);
            && GoodRolePage(page) && RolesOf(PageElements(page)) == [RoleTree(name, arn)]
            && MarkerOf(PageElements(page), None) == None
  {
    OneRoleRead(name, arn);
    RoleNames(name);
    hide GoodRole, NameIs, RoleTree, GoodValue;
    var roles := Tree("Roles", None, [RoleTree(name, arn)]);
    KindByName(roles, Tree("Roles", None, []));
    hide KindOf;
    OnlyElement(roles);
  }

  lemma OnlyElement(roles: Tree)
    requires KindOf(roles) == Roles
    ensures RolesOf([roles]) == roles.children && MarkerOf([roles], None) == None
  {
    assert [roles][1..] == [];
    assert roles.children + [] == roles.children;
  }

  function OneRoleServer(name: string, arn: string): Server {
    (i: nat, cont: Option<string>) => Http(200, PrintDocument(OneRolePage(name, arn)))
  }

  lemma OneRoleCarried(name: string, arn: string)
    requires GoodValue(name) && GoodValue(arn)
    ensures CarriesPage(Http(200, PrintDocument(OneRolePage(name, arn))), OneRoleTree(name, arn))
  {
    OneRolePrinted(name, arn);
    OneRolePageRead(name, arn);
    hide GoodDocument, Snug, PrintDocument, Erase, OneRolePage, OneRoleTree, GoodRolePage, CarriesPage, GoodValue;
    PrintedPage(OneRolePage(name, arn), 200);
  }

  lemma OneRoleLinked(name: string, arn: string)
    requires GoodValue(name) && GoodValue(arn)
    ensures Linked(OneRoleServer(name, arn), 0, None, [OneRoleTree(name, arn)])
  {
    OneRoleCarried(name, arn);
    OneRolePageRead(name, arn);
    hide PrintDocument, OneRolePage, OneRoleTree, GoodRolePage, CarriesPage, GoodValue, RolesOf, PageElements, MarkerOf;
  }

  /** A server with one role, and what comes of looking for any. */
  lemma OneRoleLookup(name: string, arn: string, wanted: string)
    requires GoodValue(name) && GoodValue(arn)
    ensures var server := OneRoleServer(name, arn);
            && EndsWithin(server, 0, None, wanted, 1)
            && var r := ReplyResult(LastReply(server, 0, None, wanted, 1), wanted);
               && r.arn == (if wanted == name then Some(arn) else None)
               && r.rc == (if wanted == name then MS3_ERR_NONE else MS3_ERR_NOT_FOUND)
  {
    var page := OneRoleTree(name, arn);
    OneRoleLinked(name, arn);
    OneRolePageRead(name, arn);
    OneRoleRead(name, arn);
    hide OneRoleServer, OneRoleTree, RoleTree, GoodRolePage, Linked, EndsWithin, LastReply, GoodValue, GoodRole;
    hide RolesOf, PageElements, MarkerOf, NameOfRole, ArnOfRole, ReplyResult, FirstArn, AllRoles;
    FirstInPageOrder(OneRoleServer(name, arn), 0, None, wanted, [page]);
    OnlyRole(page, RoleTree(name, arn), wanted);
  }

  lemma OnlyRole(page: Tree, role: Tree, wanted: string)
    requires RolesOf(PageElements(page)) == [role]
    ensures FirstArn(AllRoles([page]), wanted) == if NameOfRole(role) == Some(wanted) then ArnOfRole(role) else None
  {
    hide NameOfRole, ArnOfRole, RolesOf, PageElements;
    assert [page][1..] == [];
    assert AllRoles([page]) == [role] + [];
    assert [role][1..] == [];
  }

  // ---- Two printed pages, the first of which names the second ----

  function RolesElem(name: string, arn: string): Elem {
    ParentElem("Roles", RoleElem(name, arn))
  }

  function MarkedPage(name: string, arn: string, marker: string): Document {
    Document(NoHeader,
             ParentElem("ListRolesResponse",
                        Group("", "ListRolesResult", "", "", [RolesElem(name, arn), TextElem("Marker", marker)], "", "")),
             "")
  }

  function RolesTree(name: string, arn: string): Tree {
    Tree("Roles", None, [RoleTree(name, arn)])
  }

  function MarkedTree(name: string, arn: string, marker: string): Tree {
    Tree("ListRolesResponse", None,
         [Tree("ListRolesResult", None, [RolesTree(name, arn), Tree("Marker", Some(marker), [])])])
  }

  lemma MarkerName()
    ensures GoodOpen("Marker", "")
  {
    OpenWithoutAttributes("Marker");
  }

  lemma ValueShown(text: string)
    requires GoodValue(text)
    ensures Shown(text) == text && Shown(text) != ""
  {
    PlainShown(text);
  }

  lemma MarkedPrinted(name: string, arn: string, marker: string)
    requires GoodValue(name) && GoodValue(arn) && GoodValue(marker)
    ensures var d := MarkedPage(name, arn, marker);
            GoodDocument(d) && Snug(d.root) && Erase(d.root) == MarkedTree(name, arn, marker)
  {
    hide GoodOpen, GoodValue, Good, Snug, LastPad, Erase, RoleElem, RoleTree, ParentElem, TextElem, Shown;
    RolePageNames();
    MarkerName();
    RoleElemGood(name, arn);
    ValueShown(marker);
    TextElemGood("Marker", marker);
    ParentGood("Roles", RoleElem(name, arn));
    PairGood("ListRolesResult", RolesElem(name, arn), TextElem("Marker", marker));
    var result := Group("", "ListRolesResult", "", "", [RolesElem(name, arn), TextElem("Marker", marker)], "", "");
    ParentGood("ListRolesResponse", result);
    RootName("ListRolesResponse", result);
  }

  lemma MarkerKinds(marker: string)
    ensures KindOf(Tree("Marker", Some(marker), [])) == Marker
  {
    NameIsPrefix("Marker", "Marker");
  }

  lemma MarkedPageRead(name: string, arn: string, marker: string)
    requires GoodValue(name) && GoodValue(arn) && GoodValue(marker)
    ensures var page := MarkedTree(name, arn, marker);
            && GoodRolePage(page) && RolesOf(PageElements(page)) == [RoleTree(name, arn)]
            && MarkerOf(PageElements(page), None) == Some(marker)
  {
    OneRoleRead(name, arn);
    RoleNames(name);
    MarkerKinds(marker);
    var roles, last := RolesTree(name, arn), Tree("Marker", Some(marker), []);
    assert GoodString(last);
    hide GoodRole, NameIs, RoleTree, GoodValue;
    KindByName(roles, Tree("Roles", None, []));
    hide KindOf;
    TwoElements(roles, last);
  }

  lemma TwoElements(roles: Tree, marker: Tree)
    requires KindOf(roles) == Roles && KindOf(marker) == Marker
    ensures RolesOf([roles, marker]) == roles.children && MarkerOf([roles, marker], None) == Some(TextOf(marker))
  {
    hide KindOf, TextOf;
    assert [roles, marker][1..] == [marker] && [marker][1..] == [];
    assert RolesOf([marker]) == [];
    assert roles.children + [] == roles.children;
    assert MarkerOf([marker], None) == Some(TextOf(marker));
  }

  lemma MarkedCarried(name: string, arn: string, marker: string)
    requires GoodValue(name) && GoodValue(arn) && GoodValue(marker)
    ensures CarriesPage(Http(200, PrintDocument(MarkedPage(name, arn, marker))), MarkedTree(name, arn, marker))
  {
    MarkedPrinted(name, arn, marker);
    MarkedPageRead(name, arn, marker);
    hide GoodDocument, Snug, PrintDocument, Erase, MarkedPage, MarkedTree, GoodRolePage, CarriesPage, GoodValue;
    PrintedPage(MarkedPage(name, arn, marker), 200);
  }

  /** The second page comes for the marker of the first. */
  function TwoRoleServer(name: string, arn: string, marker: string, name': string, arn': string): Server {
    (i: nat, cont: Option<string>) =>
      Http(200, PrintDocument(if cont == Some(marker) then OneRolePage(name', arn') else MarkedPage(name, arn, marker)))
  }

  lemma TwoReplies(name: string, arn: string, marker: string, name': string, arn': string)
    ensures var server := TwoRoleServer(name, arn, marker, name', arn');
            && server(0, None) == Http(200, PrintDocument(MarkedPage(name, arn, marker)))
            && server(1, Some(marker)) == Http(200, PrintDocument(OneRolePage(name', arn')))
  {
    hide PrintDocument, MarkedPage, OneRolePage;
  }

  lemma LinkTwo(server: Server, a: Tree, marker: string, b: Tree)
    requires CarriesPage(server(0, None), a) && MarkerOf(PageElements(a), None) == Some(marker)
    requires CarriesPage(server(1, Some(marker)), b) && MarkerOf(PageElements(b), None) == None
    ensures Linked(server, 0, None, [a, b])
  {
    hide CarriesPage, MarkerOf, PageElements;
    assert [a, b][1..] == [b];
    assert Linked(server, 1, Some(marker), [b]);
  }

  lemma TwoRolesLinked(name: string, arn: string, marker: string, name': string, arn': string)
    requires GoodValue(name) && GoodValue(arn) && GoodValue(marker) && GoodValue(name') && GoodValue(arn')
    ensures Linked(TwoRoleServer(name, arn, marker, name', arn'), 0, None,
                   [MarkedTree(name, arn, marker), OneRoleTree(name', arn')])
  {
    hide PrintDocument, OneRolePage, OneRoleTree, MarkedPage, MarkedTree, GoodRolePage, CarriesPage, GoodValue, RolesOf;
    hide PageElements, MarkerOf, TwoRoleServer, Linked;
    TwoReplies(name, arn, marker, name', arn');
    MarkedCarried(name, arn, marker);
    MarkedPageRead(name, arn, marker);
    OneRoleCarried(name', arn');
    OneRolePageRead(name', arn');
    LinkTwo(TwoRoleServer(name, arn, marker, name', arn'), MarkedTree(name, arn, marker), marker,
            OneRoleTree(name', arn'));
  }

  /** A server with two roles on two pages, and what comes of looking for any. */
  lemma TwoRoleLookup(name: string, arn: string, marker: string, name': string, arn': string, wanted: string)
    requires GoodValue(name) && GoodValue(arn) && GoodValue(marker) && GoodValue(name') && GoodValue(arn')
    ensures var server := TwoRoleServer(name, arn, marker, name', arn');
            && EndsWithin(server, 0, None, wanted, 2)
            && var r := ReplyResult(LastReply(server, 0, None, wanted, 2), wanted);
               && r.arn == (if wanted == name then Some(arn) else if wanted == name' then Some(arn') else None)
               && r.rc == (if wanted == name || wanted == name' then MS3_ERR_NONE else MS3_ERR_NOT_FOUND)
  {
    var pages := [MarkedTree(name, arn, marker), OneRoleTree(name', arn')];
    TwoRolesLinked(name, arn, marker, name', arn');
    MarkedPageRead(name, arn, marker);
    OneRolePageRead(name', arn');
    OneRoleRead(name, arn);
    OneRoleRead(name', arn');
    hide TwoRoleServer, OneRoleTree, MarkedTree, RoleTree, GoodRolePage, Linked, EndsWithin, LastReply, GoodValue;
    hide GoodRole, RolesOf, PageElements, MarkerOf, NameOfRole, ArnOfRole, ReplyResult, FirstArn, AllRoles;
    FirstInPageOrder(TwoRoleServer(name, arn, marker, name', arn'), 0, None, wanted, pages);
    TwoRoles(pages[0], pages[1], RoleTree(name, arn), RoleTree(name', arn'), wanted);
  }

  lemma TwoRoles(a: Tree, b: Tree, role: Tree, role': Tree, wanted: string)
    requires RolesOf(PageElements(a)) == [role] && RolesOf(PageElements(b)) == [role']
    ensures FirstArn(AllRoles([a, b]), wanted) ==
            if NameOfRole(role) == Some(wanted) then ArnOfRole(role)
            else if NameOfRole(role') == Some(wanted) then ArnOfRole(role') else None
  {
    OnlyRole(b, role', wanted);
    hide NameOfRole, ArnOfRole, RolesOf, PageElements;
    assert [a, b][1..] == [b];
    assert AllRoles([a, b]) == [role] + AllRoles([b]);
    assert AllRoles([a, b])[1..] == AllRoles([b]);
  }
}
