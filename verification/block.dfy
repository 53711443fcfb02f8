/**
  A block of generated text, seen as the sequence of lines it renders to
  once flattened into its parent. Indentation is already part of each line.
 */
module Blocks {

  datatype Block = Block(lines: seq<string>)
}
