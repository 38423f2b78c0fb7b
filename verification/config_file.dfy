/** The configuration tree (`ConfigFile` namespace in
    ConfigFileInterface.h/.cpp). An XML document, already parsed, is turned
    on demand into `ConfigObject`s: a name, text data, an attribute map, the
    ordered children and a name-to-index multimap of the children. Objects
    are cached by the key they were requested under. */
module ConfigFile {
  import opened Wrappers

  /** One attribute of a parsed XML node. */
  datatype XmlAttribute = XmlAttribute(name: string, value: string)

  /** A parsed XML node as the parser presents it: name, value, attributes
      in document order and child nodes in document order. */
  datatype XmlNode = XmlNode(
    name: string,
    value: string,
    attributes: seq<XmlAttribute>,
    children: seq<XmlNode>)

  /** `ConfigFileException`: a message, a path and a name. */
  datatype ConfigFileException = ConfigFileException(message: string, path: string, name: string)

  /** `children_byname` is a multimap; as a value it is the multiset of its
      (name, index) entries. */
  datatype ConfigObject = ConfigObject(
    name: string,
    data: string,
    attribMap: map<string, string>,
    children: seq<ConfigObject>,
    childrenByName: multiset<(string, int)>)

  // ---------------------------------------------------------------------
  // ConfigObject
  // ---------------------------------------------------------------------

  /** The attribute loop: each attribute in document order is assigned into
      the map. Its keys are exactly the attribute names. */
  function AttributeMap(attrs: seq<XmlAttribute>): (m: map<string, string>)
    ensures m.Keys == set a | a in attrs :: a.name
  {
    if attrs == [] then map[]
    else
      var prefix := attrs[..|attrs| - 1];
      var last := attrs[|attrs| - 1];
      assert attrs == prefix + [last];
      AttributeMap(prefix)[last.name := last.value]
  }

  /** A repeated attribute name ends up with the value of its last
      occurrence. */
  lemma {:induction false} AttributeMapLastWins(attrs: seq<XmlAttribute>, i: nat)
    requires i < |attrs| && LastWithName(attrs, i)
    ensures attrs[i].name in AttributeMap(attrs)
    ensures AttributeMap(attrs)[attrs[i].name] == attrs[i].value
    decreases |attrs|
  {
    assert attrs[i] in attrs;
    var prefix := attrs[..|attrs| - 1];
    if i < |attrs| - 1 {
      assert LastWithName(prefix, i) by {
        forall j | i < j < |prefix| ensures prefix[j].name != prefix[i].name {
          assert prefix[j] == attrs[j];
        }
      }
      AttributeMapLastWins(prefix, i);
      assert attrs[|attrs| - 1].name != attrs[i].name;
    }
  }

  /** No attribute after position `i` has the same name. */
  predicate LastWithName(attrs: seq<XmlAttribute>, i: int)
    requires 0 <= i < |attrs|
  {
    forall j :: i < j < |attrs| ==> attrs[j].name != attrs[i].name
  }

  /** The children loop up to child `n`: one (name, index) entry per child
      already added. */
  function ByName(children: seq<ConfigObject>, n: nat): (b: multiset<(string, int)>)
    requires n <= |children|
    ensures |b| == n
    ensures forall name, i :: b[(name, i)] == if 0 <= i < n && children[i].name == name then 1 else 0
  {
    if n == 0 then multiset{}
    else ByName(children, n - 1) + multiset{(children[n - 1].name, n - 1)}
  }

  /** The multimap and the children agree: every entry points at a child of
      that name, and every child is listed exactly once under its name. */
  predicate ByNameMatches(children: seq<ConfigObject>, b: multiset<(string, int)>) {
    && |b| == |children|
    && (forall p :: p in b ==> 0 <= p.1 < |children| && children[p.1].name == p.0)
    && (forall i :: 0 <= i < |children| ==> b[(children[i].name, i)] == 1)
  }

  predicate ByNameConsistent(co: ConfigObject) {
    ByNameMatches(co.children, co.childrenByName)
  }

  /** Every entry of the completed multimap names a child of that name. */
  lemma ByNameEntriesPointAtChildren(children: seq<ConfigObject>)
    ensures forall p :: p in ByName(children, |children|) ==>
      0 <= p.1 < |children| && children[p.1].name == p.0
  {
    var b := ByName(children, |children|);
    forall p | p in b
      ensures 0 <= p.1 < |children| && children[p.1].name == p.0
    {
      var (name, i) := p;
      assert b[(name, i)] > 0;
    }
  }

  /** Every child is listed exactly once under its own name. */
  lemma ByNameListsEachChildOnce(children: seq<ConfigObject>)
    ensures forall i :: 0 <= i < |children| ==> ByName(children, |children|)[(children[i].name, i)] == 1
  {
    var b := ByName(children, |children|);
    forall i | 0 <= i < |children|
      ensures b[(children[i].name, i)] == 1
    {
      var name := children[i].name;
      assert b[(name, i)] == 1;
    }
  }

  /** The completed children loop leaves the multimap consistent. */
  lemma ByNameComplete(children: seq<ConfigObject>)
    ensures ByNameMatches(children, ByName(children, |children|))
  {
    ByNameEntriesPointAtChildren(children);
    ByNameListsEachChildOnce(children);
  }

  /** The name-to-index multimap the completed children loop builds. */
  function ChildIndex(children: seq<ConfigObject>): (b: multiset<(string, int)>)
    ensures ByNameMatches(children, b)
  {
    ByNameComplete(children);
    ByName(children, |children|)
  }

  /** The `ConfigObject` constructor: name and data copied from the node,
      the attribute map built in document order, one child object per child
      node in document order, and the name-to-index entries for them. */
  function FromNode(n: XmlNode): (co: ConfigObject)
    ensures co.name == n.name && co.data == n.value
    ensures co.attribMap == AttributeMap(n.attributes)
    ensures |co.children| == |n.children|
    ensures forall i :: 0 <= i < |n.children| ==> co.children[i].name == n.children[i].name
    ensures forall i :: 0 <= i < |n.children| ==> co.children[i] == FromNode(n.children[i])
    ensures ByNameConsistent(co)
    decreases n
  {
    var kids := seq(|n.children|, i requires 0 <= i < |n.children| => FromNode(n.children[i]));
    ConfigObject(n.name, n.value, AttributeMap(n.attributes), kids, ChildIndex(kids))
  }

  /** Two children with the same name are both kept, each under its own
      index. */
  lemma RepeatedNamesKept(n: XmlNode, i: nat, j: nat)
    requires i < j < |n.children| && n.children[i].name == n.children[j].name
    ensures var co := FromNode(n);
      (n.children[i].name, i) in co.childrenByName && (n.children[j].name, j) in co.childrenByName
  {
    var co := FromNode(n);
    assert co.childrenByName[(co.children[i].name, i)] == 1;
    assert co.childrenByName[(co.children[j].name, j)] == 1;
  }

  /** `GetAttribute`: `map::at`, which throws for a missing key. */
  function GetAttribute(co: ConfigObject, key: string): (r: Result<string, OutOfRangeError>)
    ensures r.Success? <==> key in co.attribMap
    ensures r.Success? ==> r.value == co.attribMap[key]
  {
    if key in co.attribMap then Success(co.attribMap[key]) else Failure(OutOfRange)
  }

  /** `SetAttribute`: `map::emplace`, which adds a missing key and never
      overwrites an existing one. */
  function SetAttribute(co: ConfigObject, key: string, val: string): (r: ConfigObject)
    ensures r.(attribMap := co.attribMap) == co
    ensures r.attribMap.Keys == co.attribMap.Keys + {key}
    ensures forall k :: k in co.attribMap ==> r.attribMap[k] == co.attribMap[k]
    ensures key !in co.attribMap ==> r.attribMap[key] == val
  {
    if key in co.attribMap then co else co.(attribMap := co.attribMap[key := val])
  }

  /** Reading back an attribute just set gives the new value only if the
      key was absent; otherwise the old value survives. */
  lemma SetThenGetAttribute(co: ConfigObject, key: string, val: string)
    ensures GetAttribute(SetAttribute(co, key, val), key)
         == Success(if key in co.attribMap then co.attribMap[key] else val)
  {
  }

  // ---------------------------------------------------------------------
  // ConfigFileInterface
  // ---------------------------------------------------------------------

  /** The interface: file name, the parsed document's top-level nodes, the
      cache of objects built so far, and the never-set `modified` flag. The
      file text is read and parsed by the constructor; that I/O is outside
      this model. */
  datatype ConfigFileInterface = ConfigFileInterface(
    filename: string,
    document: seq<XmlNode>,
    cache: map<string, ConfigObject>,
    modified: bool)

  /** What reading the file gave: it could not be opened, or `count` of
      its `length` characters were read and what was read parsed into these
      top-level nodes. `read` sets the end-of-file flag exactly when it ran
      out of characters before `length`, that is when `count < length`. The
      reading and the XML parsing themselves are I/O and a foreign library,
      so they enter as this value. */
  datatype FileRead = CannotOpen | Read(length: nat, count: nat, document: seq<XmlNode>)

  predicate EndOfFile(file: FileRead)
    requires file.Read?
  {
    file.count < file.length
  }

  /** A document that parsed into at least one node becomes an interface
      with an empty cache; one without any node is rejected. */
  function Parse(filename: string, document: seq<XmlNode>): (r: Result<ConfigFileInterface, ConfigFileException>)
    ensures r.Success? <==> document != []
    ensures document == [] ==> r == Failure(ConfigFileException("Config file format error - no root node", "", filename))
    ensures r.Success? ==> r.value.filename == filename && r.value.document == document
    ensures r.Success? ==> r.value.cache == map[] && !r.value.modified && CacheCoherent(r.value)
  {
    if document == [] then
      Failure(ConfigFileException("Config file format error - no root node", "", filename))
    else
      Success(ConfigFileInterface(filename, document, map[], false))
  }

  /** The constructor as written: an unopenable file throws; a read that
      stopped at end of file goes on to parsing; a read that did not reach
      end of file, which includes one that read every character, throws
      "Unable to read contents of config file.". */
  function Open(filename: string, file: FileRead): (r: Result<ConfigFileInterface, ConfigFileException>)
    ensures r.Success? <==> file.Read? && EndOfFile(file) && file.document != []
    ensures file.CannotOpen? ==> r == Failure(ConfigFileException("Cannot find or open config file.", "", filename))
    ensures file.Read? && !EndOfFile(file) ==>
      r == Failure(ConfigFileException("Unable to read contents of config file.", "", filename))
    ensures file.Read? && EndOfFile(file) ==> r == Parse(filename, file.document)
  {
    match file
    case CannotOpen => Failure(ConfigFileException("Cannot find or open config file.", "", filename))
    case Read(length, count, document) =>
      if count < length then Parse(filename, document)
      else Failure(ConfigFileException("Unable to read contents of config file.", "", filename))
  }

  /** The constructor as its log messages describe it: a read of all
      `length` characters goes on to parsing and a read of fewer throws. */
  function OpenIntended(filename: string, file: FileRead): (r: Result<ConfigFileInterface, ConfigFileException>)
    ensures r.Success? <==> file.Read? && file.count >= file.length && file.document != []
    ensures file.CannotOpen? ==> r == Failure(ConfigFileException("Cannot find or open config file.", "", filename))
    ensures file.Read? && file.count < file.length ==>
      r == Failure(ConfigFileException("Unable to read contents of config file.", "", filename))
    ensures file.Read? && file.count >= file.length ==> r == Parse(filename, file.document)
  {
    match file
    case CannotOpen => Failure(ConfigFileException("Cannot find or open config file.", "", filename))
    case Read(length, count, document) =>
      if count < length then Failure(ConfigFileException("Unable to read contents of config file.", "", filename))
      else Parse(filename, document)
  }

  /** The two constructors agree on an unopenable file and disagree on
      every read of a well-formed document: a complete read fails as written
      and succeeds as intended, a short read the other way round. */
  lemma OpenDiscrepancy(filename: string, length: nat, count: nat, document: seq<XmlNode>)
    requires document != []
    ensures Open(filename, CannotOpen) == OpenIntended(filename, CannotOpen)
    ensures Open(filename, Read(length, count, document)).Success?
        <==> !OpenIntended(filename, Read(length, count, document)).Success?
    ensures count == length ==>
      Open(filename, Read(length, count, document))
        == Failure(ConfigFileException("Unable to read contents of config file.", "", filename))
  {
  }

  /** A concrete case: a five-character file read in full, holding one
      node, is rejected as written and accepted as intended. */
  lemma CompleteReadRejected()
    ensures var file := Read(5, 5, [XmlNode("root", "", [], [])]);
      Open("config.xml", file).Failure? && OpenIntended("config.xml", file).Success?
  {
  }

  /** The document's first top-level node called `key`, if any
      (`first_node(key)`, which is also `GetConfigNode`). */
  function FirstNode(document: seq<XmlNode>, key: string): (r: Option<XmlNode>)
    ensures r.None? <==> forall i :: 0 <= i < |document| ==> document[i].name != key
    ensures r.Some? ==> exists i :: 0 <= i < |document| && document[i] == r.value && r.value.name == key
                          && forall j :: 0 <= j < i ==> document[j].name != key
  {
    if document == [] then None
    else if document[0].name == key then
      assert document[0] == document[0];
      Some(document[0])
    else
      var r := FirstNode(document[1..], key);
      if r.Some? then
        var i :| 0 <= i < |document[1..]| && document[1..][i] == r.value && r.value.name == key
                  && forall j :: 0 <= j < i ==> document[1..][j].name != key;
        assert document[i + 1] == r.value;
        r
      else
        r
  }

  /** Every cached object is the one built from the node its key names. */
  predicate CacheCoherent(cfi: ConfigFileInterface) {
    forall key :: key in cfi.cache ==>
      FirstNode(cfi.document, key).Some? && cfi.cache[key] == FromNode(FirstNode(cfi.document, key).value)
  }

  /** `GetConfigObject`: a cache hit returns the stored object and changes
      nothing; a miss builds the object from the first node called `key` and
      stores it. Only the cache changes. A key with no node would make the
      constructor dereference a null pointer, hence the precondition; so the
      result is never null. */
  function GetConfigObject(cfi: ConfigFileInterface, key: string): (r: (ConfigObject, ConfigFileInterface))
    requires key in cfi.cache || FirstNode(cfi.document, key).Some?
    ensures r.1.(cache := cfi.cache) == cfi
    ensures key in r.1.cache && r.1.cache[key] == r.0
    ensures key in cfi.cache ==> r.0 == cfi.cache[key] && r.1 == cfi
    ensures key !in cfi.cache ==>
      r.0 == FromNode(FirstNode(cfi.document, key).value) && r.1.cache == cfi.cache[key := r.0]
    ensures CacheCoherent(cfi) ==> CacheCoherent(r.1)
  {
    if key in cfi.cache then (cfi.cache[key], cfi)
    else
      var co := FromNode(FirstNode(cfi.document, key).value);
      (co, cfi.(cache := cfi.cache[key := co]))
  }

  /** Asking twice for the same key gives the same object, and the second
      call leaves the interface as the first call left it. */
  lemma GetConfigObjectStable(cfi: ConfigFileInterface, key: string)
    requires key in cfi.cache || FirstNode(cfi.document, key).Some?
    ensures var (co1, cfi1) := GetConfigObject(cfi, key);
            var (co2, cfi2) := GetConfigObject(cfi1, key);
            co2 == co1 && cfi2 == cfi1
  {
  }

  /** A lookup adds at most one cache entry and never drops one. */
  lemma GetConfigObjectGrowsCacheByAtMostOne(cfi: ConfigFileInterface, key: string)
    requires key in cfi.cache || FirstNode(cfi.document, key).Some?
    ensures cfi.cache.Keys <= GetConfigObject(cfi, key).1.cache.Keys
    ensures |GetConfigObject(cfi, key).1.cache| <= |cfi.cache| + 1
  {
  }

  /** `SetConfigValue` is unimplemented: it always throws, and `modified`
      is never set. */
  function SetConfigValue(cfi: ConfigFileInterface, key: string, value: string)
    : (r: (ConfigFileInterface, Outcome<ConfigFileException>))
    ensures r.0 == cfi
    ensures r.1 == Fail(ConfigFileException("Function not implemented!", key, value))
  {
    (cfi, Fail(ConfigFileException("Function not implemented!", key, value)))
  }

  /** `InsertConfigValue` is unimplemented: it always throws with the
      node's name and value, and `modified` is never set. */
  function InsertConfigValue(cfi: ConfigFileInterface, data: XmlNode)
    : (r: (ConfigFileInterface, Outcome<ConfigFileException>))
    ensures r.0 == cfi
    ensures r.1 == Fail(ConfigFileException("Function not implemented!", data.name, data.value))
  {
    (cfi, Fail(ConfigFileException("Function not implemented!", data.name, data.value)))
  }
}
