/** The signed-in user as the client holds it: a mutable record of three strings. */
module Accounts {

  class User {
    var username: string
    var email: string
    var userId: string

    constructor (username: string, email: string, userId: string)
      ensures this.username == username && this.email == email && this.userId == userId
    {
      this.username := username;
      this.email := email;
      this.userId := userId;
    }

    function GetUsername(): string
      reads this
    {
      username
    }

    function GetEmail(): string
      reads this
    {
      email
    }

    function GetUserId(): string
      reads this
    {
      userId
    }

    method SetUsername(username: string)
      modifies this
      ensures this.username == username && email == old(email) && userId == old(userId)
    {
      this.username := username;
    }

    method SetEmail(email: string)
      modifies this
      ensures this.email == email && username == old(username) && userId == old(userId)
    {
      this.email := email;
    }

    method SetUserId(userId: string)
      modifies this
      ensures this.userId == userId && username == old(username) && email == old(email)
    {
      this.userId := userId;
    }
  }
}
