/**
 * `XmlReaderCustom`: an `XmlReader` driven by a stack of elements that a
 * subclass produces one at a time. The elements the subclass would return
 * from `GetNextElement` are passed to `Read` as arguments (`None` stands for
 * the null that closes an element). `Peek` on an empty stack and an attribute
 * index out of range throw in the source; here they are failures.
 */
module CustomXml {
  import Wrappers

  type Option<T> = Wrappers.Option<T>
  type Result<T> = Wrappers.Result<T>

  /** One attribute: its key (possibly `prefix:name`) and its value. */
  datatype AttributePair = AttributePair(key: string, value: string)

  /** An element or, when `name` is empty, a text node; `value` may be null. */
  datatype CustomElement = CustomElement(name: string, value: Option<string>, attributes: seq<AttributePair>)

  datatype XmlNodeType = None | Element | Attribute | Text | EndElement

  const EmptyStack := "Stack empty."
  const OutOfRange := "Index was out of range."

  /** The position of the first ':' in `s`, or -1. */
  function ColonIndex(s: string): (r: int)
    ensures -1 <= r < |s|
    ensures r == -1 <==> ':' !in s
    ensures r >= 0 ==> s[r] == ':' && ':' !in s[..r]
  {
    if s == [] then -1
    else if s[0] == ':' then 0
    else
      var k := ColonIndex(s[1..]);
      if k == -1 then -1
      else
        assert s[1..][..k] == s[1..1 + k];
        assert s[..1 + k] == [s[0]] + s[1..1 + k];
        1 + k
  }

  /** The key with everything up to and including its first ':' removed. */
  function LocalKey(key: string): string
  {
    var c := ColonIndex(key);
    if c >= 0 then key[c + 1..] else key
  }

  /** The text before the first ':' of the key, or "" when it has none. */
  function KeyPrefix(key: string): string
  {
    var c := ColonIndex(key);
    if c >= 0 then key[..c] else ""
  }

  /** A qualified key is its prefix, a ':' and its local part; the prefix holds no ':'. */
  lemma KeySplit(key: string)
    requires ':' in key
    ensures KeyPrefix(key) + ":" + LocalKey(key) == key
    ensures ':' !in KeyPrefix(key)
  {
    var c := ColonIndex(key);
    assert key == key[..c] + [key[c]] + key[c + 1..];
  }

  /** The index of the first attribute whose local key is `name`, or -1. */
  function FirstMatch(attributes: seq<AttributePair>, name: string): (i: int)
    ensures -1 <= i < |attributes|
    ensures i >= 0 ==> LocalKey(attributes[i].key) == name
    ensures i >= 0 ==> forall j :: 0 <= j < i ==> LocalKey(attributes[j].key) != name
    ensures i == -1 <==> forall j :: 0 <= j < |attributes| ==> LocalKey(attributes[j].key) != name
  {
    if attributes == [] then -1
    else if LocalKey(attributes[0].key) == name then 0
    else
      var k := FirstMatch(attributes[1..], name);
      if k == -1 then -1 else 1 + k
  }

  /** The stack after `Read`'s first step: a text node on top is discarded. */
  function PopValueNode(elements: seq<CustomElement>): seq<CustomElement>
  {
    if |elements| > 0 && elements[|elements| - 1].name == "" then elements[..|elements| - 1] else elements
  }

  /** The stack after a whole `Read` of `next`. */
  function ReadStack(elements: seq<CustomElement>, next: Option<CustomElement>): seq<CustomElement>
  {
    var s := PopValueNode(elements);
    match next
    case Some(e) => s + [e]
    case None => if |s| > 0 then s[..|s| - 1] else s
  }

  /**
   * Reading an element, then a text node inside it, then its end leaves the
   * stack as it was before the element (after the first step's clean-up).
   */
  lemma ElementTextEndRestores(elements: seq<CustomElement>, element: CustomElement, text: CustomElement)
    requires element.name != "" && text.name == ""
    ensures ReadStack(ReadStack(ReadStack(elements, Wrappers.Some(element)), Wrappers.Some(text)), Wrappers.None)
      == PopValueNode(elements)
  {
    var s := PopValueNode(elements);
    assert ReadStack(elements, Wrappers.Some(element)) == s + [element];
    assert PopValueNode(s + [element]) == s + [element];
    assert PopValueNode(s + [element] + [text]) == s + [element];
    assert (s + [element])[..|s|] == s;
  }

  class XmlReaderCustom {
    /** The attribute cursor; -1 when not on an attribute. */
    var currentAttributeIndex: int
    var nodeType: XmlNodeType
    /** The element stack; its top is the last element. */
    var elements: seq<CustomElement>
    var readingAttributeValue: bool

    ghost predicate Valid()
      reads this
    {
      currentAttributeIndex >= -1
    }

    constructor ()
      ensures Valid()
      ensures currentAttributeIndex == -1 && nodeType == XmlNodeType.None
      ensures elements == [] && !readingAttributeValue
    {
      currentAttributeIndex := -1;
      nodeType := XmlNodeType.None;
      elements := [];
      readingAttributeValue := false;
    }

    /** The number of elements on the stack: zero exactly when there is no current element. */
    function Depth(): (d: nat)
      reads this
      ensures d == 0 <==> TopAttributes().Failure?
    {
      |elements|
    }

    /** The attributes of the top element, when there is one. */
    function TopAttributes(): Result<seq<AttributePair>>
      reads this
    {
      if elements == [] then Wrappers.Failure(EmptyStack) else Wrappers.Success(elements[|elements| - 1].attributes)
    }

    /**
     * `Read`: discards a text node on top; then pops the top for the end of an
     * element, or pushes the next element and reports it as text or element.
     * Returns whether the stack is non-empty.
     */
    method Read(next: Option<CustomElement>) returns (r: bool)
      requires Valid()
      modifies this`elements, this`nodeType
      ensures Valid()
      ensures elements == ReadStack(old(elements), next)
      ensures next.Some? ==> Depth() == |PopValueNode(old(elements))| + 1 && elements[Depth() - 1] == next.value
      ensures next.None? ==> Depth() == if |PopValueNode(old(elements))| > 0 then |PopValueNode(old(elements))| - 1 else 0
      ensures next.None? ==> nodeType == XmlNodeType.EndElement
      ensures next.Some? ==> nodeType == if next.value.name == "" then XmlNodeType.Text else XmlNodeType.Element
      ensures r <==> Depth() > 0
    {
      if |elements| > 0 && elements[|elements| - 1].name == "" {
        elements := elements[..|elements| - 1];
      }
      match next {
        case None =>
          if |elements| > 0 {
            elements := elements[..|elements| - 1];
          }
          nodeType := XmlNodeType.EndElement;
        case Some(element) =>
          elements := elements + [element];
          if element.name == "" {
            nodeType := XmlNodeType.Text;
          } else {
            nodeType := XmlNodeType.Element;
          }
      }
      r := |elements| > 0;
    }

    /** `AttributeCount`: the number of attributes of the top element. */
    function AttributeCount(): (r: Result<nat>)
      reads this
      ensures r.Failure? <==> elements == []
      ensures r.Success? ==> r.value == |TopAttributes().value|
    {
      if elements == [] then Wrappers.Failure(EmptyStack) else Wrappers.Success(|elements[|elements| - 1].attributes|)
    }

    /**
     * `GetAttribute(name)`: the value of the first attribute whose key, without
     * its prefix, is `name`; none when no key matches.
     */
    method GetAttribute(name: string) returns (r: Result<Option<string>>)
      ensures r.Failure? <==> elements == []
      ensures r.Success? ==> var attributes := TopAttributes().value; var i := FirstMatch(attributes, name);
        r.value == if i >= 0 then Wrappers.Some(attributes[i].value) else Wrappers.None
    {
      if elements == [] {
        return Wrappers.Failure(EmptyStack);
      }
      var attributes := elements[|elements| - 1].attributes;
      var i := 0;
      while i < |attributes|
        invariant 0 <= i <= |attributes|
        invariant forall j :: 0 <= j < i ==> LocalKey(attributes[j].key) != name
      {
        if LocalKey(attributes[i].key) == name {
          return Wrappers.Success(Wrappers.Some(attributes[i].value));
        }
        i := i + 1;
      }
      r := Wrappers.Success(Wrappers.None);
    }

    /** `GetAttribute(name, namespaceURI)`: the namespace is ignored. */
    method GetAttributeNs(name: string, namespaceUri: string) returns (r: Result<Option<string>>)
      ensures r.Failure? <==> elements == []
      ensures r.Success? ==> var attributes := TopAttributes().value; var i := FirstMatch(attributes, name);
        r.value == if i >= 0 then Wrappers.Some(attributes[i].value) else Wrappers.None
    {
      r := GetAttribute(name);
    }

    /** `GetAttribute(i)`: a value only for an index inside the attribute list. */
    function GetAttributeAt(i: int): (r: Result<Option<string>>)
      reads this
      ensures r.Failure? <==> elements == []
      ensures r.Success? ==> (r.value.Some? <==> 0 <= i < AttributeCount().value)
      ensures r.Success? && r.value.Some? ==> r.value.value == TopAttributes().value[i].value
    {
      if elements == [] then Wrappers.Failure(EmptyStack)
      else
        var attributes := elements[|elements| - 1].attributes;
        if 0 <= i < |attributes| then Wrappers.Success(Wrappers.Some(attributes[i].value)) else Wrappers.Success(Wrappers.None)
    }

    /** The current node type. */
    function NodeType(): XmlNodeType
      reads this
    {
      nodeType
    }

    /** `LocalName`: "" on an empty stack, the element's name off an attribute, else the attribute's whole key. */
    function LocalName(): (r: Result<string>)
      reads this
      ensures elements == [] ==> r == Wrappers.Success("")
      ensures elements != [] && currentAttributeIndex == -1 ==> r == Wrappers.Success(elements[|elements| - 1].name)
      ensures r.Failure? <==>
        (elements != [] && currentAttributeIndex != -1 && !(0 <= currentAttributeIndex < |TopAttributes().value|))
    {
      if elements == [] then Wrappers.Success("")
      else
        var top := elements[|elements| - 1];
        if currentAttributeIndex == -1 then Wrappers.Success(top.name)
        else if 0 <= currentAttributeIndex < |top.attributes| then Wrappers.Success(top.attributes[currentAttributeIndex].key)
        else Wrappers.Failure(OutOfRange)
    }

    /** `Prefix`: the prefix of the current attribute's key, "" off an attribute or without ':'. */
    function Prefix(): (r: Result<string>)
      reads this
      ensures currentAttributeIndex == -1 ==> r == Wrappers.Success("")
      ensures r.Success? ==> ':' !in r.value
      ensures elements != [] && 0 <= currentAttributeIndex < |TopAttributes().value| ==>
        r == Wrappers.Success(KeyPrefix(TopAttributes().value[currentAttributeIndex].key))
    {
      if currentAttributeIndex == -1 then Wrappers.Success("")
      else if elements == [] then Wrappers.Failure(EmptyStack)
      else
        var top := elements[|elements| - 1];
        if 0 <= currentAttributeIndex < |top.attributes| then
          var key := top.attributes[currentAttributeIndex].key;
          var c := ColonIndex(key);
          if c >= 0 then Wrappers.Success(key[..c]) else Wrappers.Success("")
        else Wrappers.Failure(OutOfRange)
    }

    /** `Value`: the current attribute's value, or the top element's value off an attribute. */
    function Value(): (r: Result<Option<string>>)
      reads this
      ensures elements == [] ==> r.Failure?
      ensures elements != [] && currentAttributeIndex == -1 ==> r == Wrappers.Success(elements[|elements| - 1].value)
      ensures elements != [] && 0 <= currentAttributeIndex < |TopAttributes().value| ==>
        r == GetAttributeAt(currentAttributeIndex)
    {
      if elements == [] then Wrappers.Failure(EmptyStack)
      else
        var top := elements[|elements| - 1];
        if currentAttributeIndex == -1 then Wrappers.Success(top.value)
        else if 0 <= currentAttributeIndex < |top.attributes| then Wrappers.Success(Wrappers.Some(top.attributes[currentAttributeIndex].value))
        else Wrappers.Failure(OutOfRange)
    }

    /**
     * `MoveToAttribute(name)`: on a match the cursor goes to the first matching
     * attribute, whose name and value `LocalName` and `Value` then report; on
     * no match nothing changes. The node type is left as it is.
     */
    method MoveToAttribute(name: string) returns (r: Result<bool>)
      requires Valid()
      modifies this`currentAttributeIndex
      ensures Valid()
      ensures r.Failure? <==> old(elements) == []
      ensures r.Success? ==> (r.value <==> FirstMatch(TopAttributes().value, name) >= 0)
      ensures r == Wrappers.Success(true) ==> currentAttributeIndex == FirstMatch(TopAttributes().value, name)
      ensures r == Wrappers.Success(true) ==> LocalName().Success? && LocalKey(LocalName().value) == name
      ensures r == Wrappers.Success(true) ==> Value() == GetAttributeAt(currentAttributeIndex)
      ensures r != Wrappers.Success(true) ==> currentAttributeIndex == old(currentAttributeIndex)
    {
      if elements == [] {
        return Wrappers.Failure(EmptyStack);
      }
      var attributes := elements[|elements| - 1].attributes;
      var i := 0;
      while i < |attributes|
        invariant 0 <= i <= |attributes|
        invariant forall j :: 0 <= j < i ==> LocalKey(attributes[j].key) != name
      {
        if LocalKey(attributes[i].key) == name {
          currentAttributeIndex := i;
          return Wrappers.Success(true);
        }
        i := i + 1;
      }
      r := Wrappers.Success(false);
    }

    /** `MoveToAttribute(name, ns)`: the namespace is ignored. */
    method MoveToAttributeNs(name: string, ns: string) returns (r: Result<bool>)
      requires Valid()
      modifies this`currentAttributeIndex
      ensures Valid()
      ensures r.Failure? <==> old(elements) == []
      ensures r.Success? ==> (r.value <==> FirstMatch(TopAttributes().value, name) >= 0)
      ensures r == Wrappers.Success(true) ==> currentAttributeIndex == FirstMatch(TopAttributes().value, name)
      ensures r != Wrappers.Success(true) ==> currentAttributeIndex == old(currentAttributeIndex)
    {
      r := MoveToAttribute(name);
    }

    /** `MoveToFirstAttribute`: succeeds only when the top element has an attribute. */
    method MoveToFirstAttribute() returns (r: Result<bool>)
      requires Valid()
      modifies this`currentAttributeIndex, this`nodeType
      ensures Valid()
      ensures r.Failure? <==> elements == []
      ensures r.Success? ==> (r.value <==> |TopAttributes().value| > 0)
      ensures r == Wrappers.Success(true) ==> currentAttributeIndex == 0 && nodeType == XmlNodeType.Attribute
      ensures r == Wrappers.Success(true) ==> LocalName() == Wrappers.Success(TopAttributes().value[0].key)
      ensures r != Wrappers.Success(true) ==>
        currentAttributeIndex == old(currentAttributeIndex) && nodeType == old(nodeType)
    {
      if elements == [] {
        return Wrappers.Failure(EmptyStack);
      }
      if |elements[|elements| - 1].attributes| > 0 {
        currentAttributeIndex := 0;
        nodeType := XmlNodeType.Attribute;
        return Wrappers.Success(true);
      }
      r := Wrappers.Success(false);
    }

    /**
     * `MoveToNextAttribute`: advances the cursor when the next index is still an
     * attribute of the top element; otherwise nothing changes.
     */
    method MoveToNextAttribute() returns (r: Result<bool>)
      requires Valid()
      modifies this`currentAttributeIndex, this`nodeType
      ensures Valid()
      ensures r.Failure? <==> elements == []
      ensures r.Success? ==> (r.value <==> old(currentAttributeIndex) + 1 < |TopAttributes().value|)
      ensures r == Wrappers.Success(true) ==>
        currentAttributeIndex == old(currentAttributeIndex) + 1 && nodeType == XmlNodeType.Attribute
      ensures r == Wrappers.Success(true) ==> 0 <= currentAttributeIndex < |TopAttributes().value|
      ensures r != Wrappers.Success(true) ==>
        currentAttributeIndex == old(currentAttributeIndex) && nodeType == old(nodeType)
    {
      if elements == [] {
        return Wrappers.Failure(EmptyStack);
      }
      var count := |elements[|elements| - 1].attributes|;
      if currentAttributeIndex + 1 < count {
        nodeType := XmlNodeType.Attribute;
        currentAttributeIndex := currentAttributeIndex + 1;
        return Wrappers.Success(currentAttributeIndex < count);
      }
      r := Wrappers.Success(false);
    }

    /** `MoveToElement`: leaves the attributes; always true. */
    method MoveToElement() returns (r: bool)
      requires Valid()
      modifies this`currentAttributeIndex, this`nodeType
      ensures Valid()
      ensures r && currentAttributeIndex == -1
      ensures nodeType == if old(nodeType) == XmlNodeType.Attribute then XmlNodeType.Element else old(nodeType)
      ensures elements != [] ==> LocalName() == Wrappers.Success(elements[|elements| - 1].name)
    {
      if nodeType == XmlNodeType.Attribute {
        nodeType := XmlNodeType.Element;
      }
      currentAttributeIndex := -1;
      r := true;
    }

    /** `ReadAttributeValue`: toggles between the attribute's text and the attribute itself. */
    method ReadAttributeValue() returns (r: bool)
      requires Valid()
      modifies this`readingAttributeValue, this`nodeType
      ensures Valid()
      ensures readingAttributeValue == !old(readingAttributeValue) && r == readingAttributeValue
      ensures nodeType == if r then XmlNodeType.Text else XmlNodeType.Attribute
    {
      readingAttributeValue := !readingAttributeValue;
      if readingAttributeValue {
        nodeType := XmlNodeType.Text;
      } else {
        nodeType := XmlNodeType.Attribute;
      }
      r := readingAttributeValue;
    }
  }

  /** Two calls to `ReadAttributeValue` restore the toggle and leave the reader on the attribute. */
  method ReadAttributeValueTwice(reader: XmlReaderCustom) returns (first: bool, second: bool)
    requires reader.Valid()
    modifies reader`readingAttributeValue, reader`nodeType
    ensures reader.Valid()
    ensures first != second && first == !old(reader.readingAttributeValue)
    ensures reader.readingAttributeValue == old(reader.readingAttributeValue)
    ensures reader.nodeType == if second then XmlNodeType.Text else XmlNodeType.Attribute
  {
    first := reader.ReadAttributeValue();
    second := reader.ReadAttributeValue();
  }
}
