/** The slice of an already-parsed go.mod syntax tree that the require-style
    checker looks at, plus the two string predicates from Go's `strings`
    package that it uses.  Parsing itself happens outside this model. */
module ModFile {

  datatype Option<+T> = None | Some(value: T)

  /** A source position: the file name and the 1-based line number. */
  datatype Position = Position(filename: string, line: nat)

  /** The comments attached to a line; only the trailing (suffix) comment
      tokens matter here, each one the raw text such as "// indirect". */
  datatype Comments = Comments(suffix: seq<string>)

  /** One syntax line: its tokens, what `Comment()` returns for it (possibly
      nil) and the line number it starts on. */
  datatype Line = Line(token: seq<string>, comment: Option<Comments>, start: nat)

  /** A top-level statement: a single line, a parenthesised block with its
      header tokens and inner lines, or anything else (a comment block). */
  datatype Stmt =
    | LineStmt(line: Line)
    | LineBlock(token: seq<string>, lines: seq<Line>, start: nat)
    | CommentBlock(start: nat)
  {
    /** The line the statement starts on. */
    function StartLine(): nat {
      match this
      case LineStmt(l) => l.start
      case LineBlock(_, _, start) => start
      case CommentBlock(start) => start
    }
  }

  /** A parsed file: its name and its top-level statements in order. */
  datatype File = File(name: string, stmts: seq<Stmt>)

  /** A statement the require checker can process without indexing out of
      range: every token list it inspects is non-empty, and a single
      `require` line has its name and version tokens. */
  predicate Processable(s: Stmt) {
    match s
    case LineStmt(l) => |l.token| > 0 && (l.token[0] == "require" ==> |l.token| >= 3)
    case LineBlock(token, _, _) => |token| > 0
    case CommentBlock(_) => true
  }

  predicate AllProcessable(stmts: seq<Stmt>) {
    forall k :: 0 <= k < |stmts| ==> Processable(stmts[k])
  }

  /** `strings.HasPrefix`. */
  predicate HasPrefix(s: string, prefix: string) {
    |prefix| <= |s| && s[..|prefix|] == prefix
  }

  /** `sub` occurs in `s` starting at index `k`. */
  predicate OccursAt(s: string, sub: string, k: nat)
    requires k + |sub| <= |s|
  {
    s[k..k + |sub|] == sub
  }

  /** `strings.Contains`. */
  predicate Contains(s: string, sub: string) {
    exists k: nat :: k + |sub| <= |s| && OccursAt(s, sub, k)
  }
}
