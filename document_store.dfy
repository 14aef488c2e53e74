/**
 * The document store seen by the route handlers: an in-memory map from user
 * id to user, read by `findById` into a fresh document object and written
 * back by `save`. The document's `logs` list is what a handler pushes onto.
 */
module DocumentStore {
  import opened ExerciseLog

  /** A user document loaded from the store; `Push` changes it in place. */
  class UserDocument {
    const id: string
    var username: string
    var logs: seq<LogEntry>

    constructor Load(id: string, u: User)
      ensures this.id == id && username == u.username && logs == u.logs
    {
      this.id := id;
      username := u.username;
      logs := u.logs;
    }

    /** `user.logs.push(entry)`: one entry added at the end, nothing else touched. */
    method Push(e: LogEntry)
      modifies this
      ensures logs == old(logs) + [e]
      ensures username == old(username)
    {
      logs := logs + [e];
    }
  }

  class Store {
    var users: map<string, User>

    constructor (initial: map<string, User>)
      ensures users == initial
    {
      users := initial;
    }

    /**
     * `findById`: it fails (throws) for an id the store cannot convert;
     * otherwise it gives a fresh copy of the stored user, or null when there
     * is none.
     */
    method FindById(id: string, casts: string -> bool) returns (failed: bool, doc: UserDocument?)
      ensures failed == !casts(id)
      ensures doc == null <==> failed || id !in users
      ensures doc != null ==>
                && fresh(doc) && doc.id == id
                && doc.username == users[id].username
                && doc.logs == users[id].logs
    {
      failed := !casts(id);
      if !failed && id in users {
        doc := new UserDocument.Load(id, users[id]);
      } else {
        doc := null;
      }
    }

    /** `save`: the document replaces the stored user under its id; no other user changes. */
    method Save(doc: UserDocument)
      modifies this
      ensures users == old(users)[doc.id := User(doc.username, doc.logs)]
    {
      users := users[doc.id := User(doc.username, doc.logs)];
    }
  }
}
