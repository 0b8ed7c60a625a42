/**
 * Qualified names. The parser and the prefix bookkeeping of the QName maker
 * are not part of this model: a name is its namespace and its local part.
 */
module QNames {
  import opened Wrappers
  import opened Text

  datatype QName = QName(namespace: string, localName: string)

  /** The XBRL 2.1 instance namespace. */
  const XbrliNs: string := "http://www.xbrl.org/2003/instance"
  /** The namespace of Extensible Enumerations 2.0. */
  const Enum2Ns: string := "http://xbrl.org/2020/extensible-enumerations-2.0"

  /** `xbrli:pure`, the unit of last resort. */
  const Pure: QName := QName(XbrliNs, "pure")

  /** `Concept.expandedName`: the namespace, `#`, the local name. */
  function ExpandedName(q: QName): (r: string)
    ensures |r| == |q.namespace| + 1 + |q.localName|
    ensures r[..|q.namespace|] == q.namespace && r[|q.namespace|] == '#'
    ensures r[|q.namespace| + 1..] == q.localName
  {
    q.namespace + "#" + q.localName
  }

  /** Two names whose namespaces hold no `#` have the same expanded name only if they are equal. */
  lemma ExpandedNameInjective(p: QName, q: QName)
    requires '#' !in p.namespace && '#' !in q.namespace
    requires ExpandedName(p) == ExpandedName(q)
    ensures p == q
  {
  }

  /**
   * `str(qname)`: the prefix bound to the namespace, a colon and the local
   * name; a namespace without a prefix gives the local name alone.
   */
  function QNameText(prefixes: seq<(string, string)>, q: QName): (r: string)
    ensures |r| >= |q.localName| && r[|r| - |q.localName|..] == q.localName
  {
    match PrefixFor(prefixes, q.namespace)
    case Some(p) => p + ":" + q.localName
    case None => q.localName
  }

  /** The first prefix bound to `ns` in a list of (prefix, namespace) bindings. */
  function PrefixFor(prefixes: seq<(string, string)>, ns: string): Option<string> {
    if prefixes == [] then None
    else if prefixes[0].1 == ns then Some(prefixes[0].0)
    else PrefixFor(prefixes[1..], ns)
  }
}
