/** Letter case, for ASCII. */
module Characters {

  function Upper(c: char): char
  {
    if 'a' <= c <= 'z' then (c as int - 'a' as int + 'A' as int) as char else c
  }
}
