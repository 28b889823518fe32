/** The topic style table of src/config/topics.js and its lookup. */
module Topics {

  datatype TopicStyle = TopicStyle(icon: string, color: string)

  const DefaultKey := "default"

  /** `topicConfig`: five named topics and the fallback entry. */
  const TopicConfig: map<string, TopicStyle> := map[
    "Immunology" := TopicStyle("\U{1F9A0}", "text-blue-700"),
    "Cardiology" := TopicStyle("\U{2764}\U{FE0F}", "text-red-700"),
    "Neurology" := TopicStyle("\U{1F9E0}", "text-purple-700"),
    "Oncology" := TopicStyle("\U{1F52C}", "text-green-700"),
    "Genetics" := TopicStyle("\U{1F9EC}", "text-indigo-700"),
    DefaultKey := TopicStyle("\U{1F4DD}", "text-neutral-700")
  ]

  /**
   * The property names every plain JavaScript object inherits from
   * `Object.prototype`. Indexing `topicConfig` with one of them yields the
   * inherited function or object, which is truthy.
   */
  const InheritedKeys: set<string> := {
    "constructor", "__proto__", "toString", "toLocaleString", "valueOf",
    "hasOwnProperty", "isPrototypeOf", "propertyIsEnumerable",
    "__defineGetter__", "__defineSetter__", "__lookupGetter__", "__lookupSetter__"
  }

  /** The value `topicConfig[name]` evaluates to, when it is not `undefined`. */
  datatype Lookup = Entry(style: TopicStyle) | InheritedMember(name: string)

  /** `topicConfig[topicName] || topicConfig['default']` as written, own and inherited properties alike. */
  function GetTopicConfigAsWritten(name: string): (r: Lookup)
    ensures name in TopicConfig ==> r == Entry(TopicConfig[name])
    ensures name !in TopicConfig && name in InheritedKeys ==> r == InheritedMember(name)
    ensures name !in TopicConfig && name !in InheritedKeys ==> r == Entry(TopicConfig[DefaultKey])
  {
    if name in TopicConfig then Entry(TopicConfig[name])
    else if name in InheritedKeys then InheritedMember(name)
    else Entry(TopicConfig[DefaultKey])
  }

  /** A topic named `constructor` gets the `Object` function, not a style. */
  lemma AsWrittenConstructorIsNotAStyle()
    ensures !GetTopicConfigAsWritten("constructor").Entry?
  {
    assert "constructor" !in TopicConfig;
  }

  /**
   * `getTopicConfig` as intended: the topic's own entry, and the default
   * entry for every other name. The lookup is exact: case matters.
   */
  function GetTopicConfig(name: string): (r: TopicStyle)
    ensures r in TopicConfig.Values
    ensures name in TopicConfig ==> r == TopicConfig[name]
    ensures name !in TopicConfig ==> r == TopicConfig[DefaultKey]
  {
    if name in TopicConfig then TopicConfig[name] else TopicConfig[DefaultKey]
  }

  /** The source's lookup and the intended one agree on every name outside the inherited ones. */
  lemma AsWrittenAgreesOutsideInherited(name: string)
    requires name !in InheritedKeys
    ensures GetTopicConfigAsWritten(name) == Entry(GetTopicConfig(name))
  {
  }

  /** The five named topics have five different styles, none of them the fallback. */
  lemma NamedTopicsHaveOwnStyles()
    ensures var named := ["Immunology", "Cardiology", "Neurology", "Oncology", "Genetics"];
      forall i, j :: 0 <= i < j < |named| ==> GetTopicConfig(named[i]) != GetTopicConfig(named[j])
    ensures forall n :: n in TopicConfig && n != DefaultKey ==> GetTopicConfig(n) != GetTopicConfig(DefaultKey)
  {
  }

  /** The lookup is case-sensitive: `immunology` falls back to the default. */
  lemma LookupIsCaseSensitive()
    ensures GetTopicConfig("immunology") == GetTopicConfig(DefaultKey)
    ensures GetTopicConfig("Immunology") != GetTopicConfig(DefaultKey)
  {
    assert "immunology" !in TopicConfig;
  }
}
