/**
  * The action record that the content script stores for every captured user
  * event and that the background worker turns into a report.
  */
module ActionModel {
  import opened Text

  /** The element descriptor; every field is a string, `''` when the DOM had none. */
  datatype Target = Target(
    tagName: string,
    id: string,
    className: string,
    innerText: string,
    value: string,
    href: string,
    nodeName: string,
    path: string)

  /**
    * One captured action. `kind` is the DOM event type (`type` in the stored
    * record). `value` is present only for input and change events, and
    * `isConfirmed` is absent at capture time and set by report generation.
    */
  datatype Action = Action(
    timestamp: string,
    kind: string,
    target: Target,
    x: int,
    y: int,
    url: string,
    value: Option<string>,
    isConfirmed: Option<bool>)
}
