/** The issue texts the two copies of the checker render with
    `fmt.Sprintf`; both copies use the same format strings for rules 1
    and 2. */
module Messages {
  import opened Fmt

  /** Rule 1: `kind` is "direct" or "indirect", `count` the number of isolated
      lines of that kind. */
  function GroupingText(kind: string, count: nat): string {
    kind + " require lines should be grouped into blocks but found " + Decimal(count) + " isolated require directives."
  }

  /** Rule 2, too many blocks. */
  function MaxBlocksText(count: nat): string {
    "there should be a maximum of 2 require blocks but found " + Decimal(count) + "."
  }

  /** Rule 2, an isolated line whose kind has a block. */
  function InsideBlockText(name: string, version: string): string {
    "require directive \"" + name + " " + version + "\" should be inside block."
  }
}
