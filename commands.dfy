/** The script elements a command reads (`org.jdom2.Element` as data) and the lookups the
    command classes share (`AbstractCommand.getParameter`, `Element.getChild`). */
module Commands {
  import opened Outcomes

  /** A child element of a task: its name and its text (the empty string when it has none). */
  datatype Tag = Tag(name: string, text: string)

  /** A command element: its `ref` attribute and its children in document order. */
  datatype Task = Task(ref: Option<string>, children: seq<Tag>)

  /** `Element.getChild(name)`: the text of the first child with that name. */
  function Child(children: seq<Tag>, name: string): (r: Option<string>)
    ensures r.None? <==> forall i :: 0 <= i < |children| ==> children[i].name != name
    ensures r.Some? ==> exists i :: (0 <= i < |children| && children[i].name == name && children[i].text == r.value &&
      forall j :: 0 <= j < i ==> children[j].name != name)
    decreases |children|
  {
    if children == [] then None
    else if children[0].name == name then Some(children[0].text)
    else
      var r := Child(children[1..], name);
      assert forall i :: 1 <= i < |children| ==> children[i] == children[1..][i - 1];
      r
  }

  /** `getChildString`: the preprocessed text of the child, or `IllegalArgumentException`
      when there is none. */
  function Parameter(children: seq<Tag>, name: string, preprocess: string -> string): (r: Result<string>)
    ensures Child(children, name).None? ==> r == Err(IllegalArgument(": cannot find parameter " + name))
    ensures Child(children, name).Some? ==> r == Ok(preprocess(Child(children, name).value))
  {
    match Child(children, name)
    case None => Err(IllegalArgument(": cannot find parameter " + name))
    case Some(text) => Ok(preprocess(text))
  }
}
