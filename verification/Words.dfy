/** The words of the printed statements, as the scanner reads them. */
module Words {
  import opened Lexical
  import opened Tokens

  predicate Reads(w: string, t: Token) {
    IsWordText(w) && WordToken(w) == t
  }

  lemma WordNull() ensures Reads("NULL", Kw("null")) { assert Fold("NULL") == "null"; }

  lemma WordTrue() ensures Reads("true", Kw("true")) { assert Fold("true") == "true"; }

  lemma WordFalse() ensures Reads("false", Kw("false")) { assert Fold("false") == "false"; }

  lemma WordIs() ensures Reads("IS", Kw("is")) { assert Fold("IS") == "is"; }

  lemma WordNot() ensures Reads("NOT", Kw("not")) { assert Fold("NOT") == "not"; }

  lemma WordAnd() ensures Reads("AND", Kw("and")) { assert Fold("AND") == "and"; }

  lemma WordOr() ensures Reads("OR", Kw("or")) { assert Fold("OR") == "or"; }

  lemma WordIn() ensures Reads("IN", Kw("in")) { assert Fold("IN") == "in"; }

  lemma WordDistinct() ensures Reads("DISTINCT", Kw("distinct")) { assert Fold("DISTINCT") == "distinct"; }

  lemma WordFrom() ensures Reads("FROM", Kw("from")) { assert Fold("FROM") == "from"; }

  lemma WordLike() ensures Reads("LIKE", Kw("like")) { assert Fold("LIKE") == "like"; }

  lemma WordArray() ensures Reads("ARRAY", Kw("array")) { assert Fold("ARRAY") == "array"; }

  lemma WordSelect() ensures Reads("SELECT", Kw("select")) { assert Fold("SELECT") == "select"; }

  lemma WordWhere() ensures Reads("WHERE", Kw("where")) { assert Fold("WHERE") == "where"; }

  lemma WordInsert() ensures Reads("INSERT", Ident("insert")) { assert Fold("INSERT") == "insert"; }

  lemma WordInto() ensures Reads("INTO", Kw("into")) { assert Fold("INTO") == "into"; }

  lemma WordValues() ensures Reads("VALUES", Ident("values")) { assert Fold("VALUES") == "values"; }

  lemma WordDefault() ensures Reads("DEFAULT", Kw("default")) { assert Fold("DEFAULT") == "default"; }

  lemma WordUpdate() ensures Reads("UPDATE", Ident("update")) { assert Fold("UPDATE") == "update"; }

  lemma WordSet() ensures Reads("SET", Ident("set")) { assert Fold("SET") == "set"; }

  lemma WordDelete() ensures Reads("DELETE", Ident("delete")) { assert Fold("DELETE") == "delete"; }

  lemma WordLimit() ensures Reads("LIMIT", Kw("limit")) { assert Fold("LIMIT") == "limit"; }

  lemma WordOffset() ensures Reads("OFFSET", Kw("offset")) { assert Fold("OFFSET") == "offset"; }
}
