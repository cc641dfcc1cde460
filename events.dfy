/**
 * The stream of Markdown events produced by the tokenizer, reduced to the
 * shapes the event pipeline inspects. Every other event is `Other`, and
 * every other tag `OtherTag`/`OtherEnd`; the tokenizer itself is not part of
 * this model.
 */
module Events {

  datatype MetadataBlockKind = YamlStyle | PlusesStyle

  datatype CodeBlockKind = Indented | Fenced(lang: string)

  datatype Tag =
    | MetadataBlock(kind: MetadataBlockKind)
    | CodeBlock(codeKind: CodeBlockKind)
    | FootnoteDefinition(id: string)
    | OtherTag(name: string)

  datatype TagEnd =
    | MetadataBlockEnd(kind: MetadataBlockKind)
    | CodeBlockEnd
    | FootnoteDefinitionEnd
    | OtherEnd(name: string)

  datatype Event =
    | Start(tag: Tag)
    | End(tagEnd: TagEnd)
    | Text(text: string)
    | Html(html: string)
    | SoftBreak
    | FootnoteReference(id: string)
    | Other(kind: string)

  /** The `+++` markers that open and close a TOML front-matter block. */
  const TomlStart: Event := Start(MetadataBlock(PlusesStyle))
  const TomlEnd: Event := End(MetadataBlockEnd(PlusesStyle))

  /** The predicate both parsers attach to the ignore a `Text` event arms. */
  predicate IsSoftBreak(e: Event) { e == SoftBreak }
}
