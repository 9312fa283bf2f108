/** The `useFetchBooks` hook: a store of four fields (`books`, `isLoading`,
    `error`, `done`) and the operations that change them. The HTTP request is
    not modelled; its outcome is an input. `fetchBooks` awaits twice (the
    request, then the parsing of its body), and no state changes between the
    two awaits, so it is modelled as the part before the first await
    (`BeginFetch`) and the part after the second (`SettleFetch`). */
module FetchBooksHook {
  import opened JsValues
  import opened BookRecords

  /** How the GET request for the book list ended. */
  datatype Response =
    | Ok(data: Option<seq<Entry>>)
      // `response.ok`; the parsed body, `None` when it is `null`
    | NotOk(status: int, message: Option<string>)
      // a non-2xx status; the `message` field of the parsed error body
    | Rejected(reason: string)
      // `fetch` or `response.json()` threw an error with this message

  /** The values of the hook's four state fields. */
  datatype Snapshot = Snapshot(books: seq<Entry>, isLoading: bool, error: Option<string>, done: bool)

  const FALLBACK_MESSAGE: string := "Failed to fetch"

  /** The message of the error the `catch` block receives. */
  function FailureMessage(r: Response): (m: string)
    requires !r.Ok?
    ensures r.Rejected? ==> m == r.reason
    ensures r.NotOk? ==>
      var shown := OrElse(r.message, FALLBACK_MESSAGE);
      var code := NumberToString(r.status);
      && |m| == 7 + |code| + 3 + |shown|
      && m[..7] == "Error: "
      && m[7..7 + |code|] == code
      && m[7 + |code|..7 + |code| + 3] == " - "
      && m[7 + |code| + 3..] == shown
  {
    match r
    case Rejected(reason) => reason
    case NotOk(status, message) =>
      "Error: " + NumberToString(status) + " - " + OrElse(message, FALLBACK_MESSAGE)
  }

  /** In the message of a non-ok response, the status digits are followed by a space. */
  lemma StatusLayout(r: Response, j: int)
    ensures r.NotOk? && 1 <= j < |NumberToString(r.status)| ==> IsDigit(FailureMessage(r)[7 + j])
    ensures r.NotOk? ==> FailureMessage(r)[7 + |NumberToString(r.status)|] == ' '
  {
    if r.NotOk? {
      var m, c := FailureMessage(r), NumberToString(r.status);
      assert m[7 + |c|] == m[7 + |c|..7 + |c| + 3][0];
      if 1 <= j < |c| {
        assert m[7 + j] == m[7..7 + |c|][j];
        assert IsDigit(c[j]) by {
          if r.status < 0 {
            assert c[j] == c[1..][j - 1];
          }
        }
      }
    }
  }

  /** Two non-ok responses give the same message only if they have the same
      status: the status can be read back from the message. */
  lemma FailureMessageKeepsStatus(r1: Response, r2: Response)
    requires r1.NotOk? && r2.NotOk?
    requires FailureMessage(r1) == FailureMessage(r2)
    ensures r1.status == r2.status
  {
    var c1, c2 := NumberToString(r1.status), NumberToString(r2.status);
    if |c1| < |c2| {
      StatusLayout(r1, 0);
      StatusLayout(r2, |c1|);
      assert false;
    } else if |c2| < |c1| {
      StatusLayout(r2, 0);
      StatusLayout(r1, |c2|);
      assert false;
    }
    assert c1 == FailureMessage(r1)[7..7 + |c1|];
    NumberToStringInjective(r1.status, r2.status);
  }

  /** The first two statements of `fetchBooks`, before the request is awaited. */
  function Begin(s: Snapshot): (t: Snapshot)
    ensures t.isLoading && !t.done
    ensures t.books == s.books && t.error == s.error
  {
    s.(isLoading := true, done := false)
  }

  /** The rest of `fetchBooks`: the `try`, `catch` and `finally` blocks. */
  function Settle(s: Snapshot, r: Response): (t: Snapshot)
    ensures !t.isLoading
    ensures r.Ok? ==> t.books == (if r.data.Some? then r.data.value else []) && t.done && t.error == s.error
    ensures !r.Ok? ==> t.books == [] && t.error == Some(FailureMessage(r)) && t.done == s.done
  {
    match r
    case Ok(data) =>
      var books := if data.Some? then data.value else [];
      s.(books := books, done := true, isLoading := false)
    case _ =>
      s.(error := Some(FailureMessage(r)), books := [], isLoading := false)
  }

  /** What `fetchBooks` resolves to: the parsed body (possibly `null`) on
      success, an empty list on failure. */
  function FetchResult(r: Response): (result: Option<seq<Entry>>)
    ensures r.Ok? ==> result == r.data
    ensures !r.Ok? ==> result == Some([])
  {
    if r.Ok? then r.data else Some([])
  }

  /** The state a whole `fetchBooks` call leaves behind. */
  function Fetch(s: Snapshot, r: Response): (t: Snapshot)
    ensures !t.isLoading
    ensures t.done <==> r.Ok?
    ensures r.Ok? ==> t.books == (if r.data.Some? then r.data.value else [])
    ensures r.Ok? ==> t.error == s.error
    ensures !r.Ok? ==> t.books == [] && t.error == Some(FailureMessage(r))
  {
    Settle(Begin(s), r)
  }

  /** Whatever state a fetch starts from, the books it leaves are the ones the
      response determines: no stale entry survives a fetch. */
  lemma FetchForgetsOldBooks(s1: Snapshot, s2: Snapshot, r: Response)
    ensures Fetch(s1, r).books == Fetch(s2, r).books
    ensures Fetch(s1, r).done == Fetch(s2, r).done
  {
  }

  /** A retry that succeeds after a failed fetch leaves the old message in
      `error`: the hook never clears `error`. After a non-ok response that
      message is never empty, so `error` stays truthy. */
  lemma SuccessAfterFailureKeepsError(s: Snapshot, failure: Response, data: Option<seq<Entry>>)
    requires !failure.Ok?
    ensures Fetch(Fetch(s, failure), Ok(data)).error == Some(FailureMessage(failure))
    ensures Fetch(Fetch(s, failure), Ok(data)).done
    ensures failure.NotOk? ==> Truthy(Fetch(Fetch(s, failure), Ok(data)).error)
  {
  }

  /** The hook's state, held in four mutable fields as React state. */
  class BookStore {
    var books: seq<Entry>
    var isLoading: bool
    var error: Option<string>
    var done: bool

    function State(): Snapshot
      reads this
    {
      Snapshot(books, isLoading, error, done)
    }

    /** The initial values passed to `useState`. */
    constructor ()
      ensures State() == Snapshot([], false, None, false)
    {
      books := [];
      isLoading := false;
      error := None;
      done := false;
    }

    /** `setIsLoading(true); setDone(false);` and then the request is issued. */
    method BeginFetch()
      modifies this
      ensures isLoading && !done
      ensures books == old(books) && error == old(error)
      ensures State() == Begin(old(State()))
    {
      isLoading := true;
      done := false;
    }

    /** The response has arrived: the `try`, `catch` and `finally` blocks. */
    method SettleFetch(r: Response) returns (result: Option<seq<Entry>>)
      modifies this
      ensures State() == Settle(old(State()), r)
      ensures result == FetchResult(r)
    {
      match r {
        case Ok(data) =>
          books := if data.Some? then data.value else [];
          done := true;
          result := data;
        case _ =>
          error := Some(FailureMessage(r));
          books := [];
          result := Some([]);
      }
      isLoading := false;
    }

    /** `fetchBooks()` run to completion with the given response. */
    method FetchBooks(r: Response) returns (result: Option<seq<Entry>>)
      modifies this
      ensures State() == Fetch(old(State()), r)
      ensures result == FetchResult(r)
    {
      BeginFetch();
      result := SettleFetch(r);
    }

    /** `refetch()`: `setDone(false)` and then `fetchBooks()`; its promise is dropped. */
    method Refetch(r: Response)
      modifies this
      ensures State() == Fetch(old(State()).(done := false), r)
      ensures State() == Fetch(old(State()), r)
    {
      done := false;
      var _ := FetchBooks(r);
    }

    /** `addBook(newBook)`: append one book, without a request. */
    method AddBook(newBook: Entry)
      modifies this
      ensures books == old(books) + [newBook]
      ensures |books| == |old(books)| + 1 && books[|books| - 1] == newBook
      ensures books[..|old(books)|] == old(books)
      ensures isLoading == old(isLoading) && error == old(error) && done == old(done)
    {
      books := books + [newBook];
    }

    /** `removeBook(bookId)`: drop every book with that `_id`, without a
        request. Reading `_id` off a `null` element would throw inside the
        state updater, so the list must hold no `null`. */
    method RemoveBook(bookId: Id)
      requires NoNulls(books)
      modifies this
      ensures books == RemoveById(old(books), bookId)
      ensures isLoading == old(isLoading) && error == old(error) && done == old(done)
    {
      books := RemoveById(books, bookId);
    }
  }
}
