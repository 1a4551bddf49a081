/** Option and Result types shared by every module. */
module Common {

  datatype Option<+T> = None | Some(value: T)

  datatype Result<+T, +E> = Success(value: T) | Failure(error: E)
}

/** Character classes as the regular expressions of the program see them. */
module CharClasses {

  predicate IsDigit(c: char) { '0' <= c <= '9' }

  /** \w */
  predicate IsWord(c: char) { 'a' <= c <= 'z' || 'A' <= c <= 'Z' || IsDigit(c) || c == '_' }

  /** Where ^ and $ see a line end in multi-line mode. */
  predicate IsLineEnd(c: char) { c in {'\n', '\r', '\U{2028}', '\U{2029}'} }

  /** \s, which is also what trim() removes. */
  predicate IsSpace(c: char) {
    || IsLineEnd(c)
    || c in {' ', '\t', '\U{B}', '\U{C}', '\U{A0}', '\U{1680}', '\U{202F}', '\U{205F}', '\U{3000}', '\U{FEFF}'}
    || '\U{2000}' <= c <= '\U{200A}'
  }

  /** The white space and line terminators of ECMAScript, by their code points. */
  lemma SpaceCodes(c: char)
    ensures IsLineEnd(c) <==> c as int in {10, 13, 8232, 8233}
    ensures IsSpace(c) <==> c as int in {9, 10, 11, 12, 13, 32, 160, 5760, 8232, 8233, 8239, 8287, 12288, 65279}
                            || 8192 <= c as int <= 8202
  {
  }
}
